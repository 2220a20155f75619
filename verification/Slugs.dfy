/** What the normal form of a record's key is, for any key. */
module Slugs {
  import opened Strings
  import opened Records

  predicate NoWordChar(s: string) {
    forall c :: c in s ==> !IsWordChar(c)
  }

  predicate IsWord(s: string) {
    s != "" && forall c :: c in s ==> IsWordChar(c)
  }

  /** A run of letters and digits, and what stands between it and the next one. */
  datatype Token = Token(word: string, gap: string)

  predicate AreTokens(tokens: seq<Token>) {
    forall i :: 0 <= i < |tokens| ==>
      IsWord(tokens[i].word) && NoWordChar(tokens[i].gap) && (i < |tokens| - 1 ==> tokens[i].gap != "")
  }

  function Spaced(tokens: seq<Token>): string {
    if tokens == [] then "" else tokens[0].word + (tokens[0].gap + Spaced(tokens[1..]))
  }

  function Words(tokens: seq<Token>): seq<string> {
    if tokens == [] then [] else [tokens[0].word] + Words(tokens[1..])
  }

  lemma {:induction false} UnderscoredGap(lead: string, rest: string, gap: bool)
    requires NoWordChar(lead)
    ensures Underscored(lead + rest, gap)
         == (if lead == "" || gap then "" else "_") + Underscored(rest, gap || lead != "")
  {
    if lead == "" {
      assert lead + rest == rest;
    } else {
      assert lead[0] in lead;
      assert (lead + rest)[1..] == lead[1..] + rest;
      UnderscoredGap(lead[1..], rest, true);
    }
  }

  lemma {:induction false} UnderscoredWord(word: string, rest: string, gap: bool)
    requires IsWord(word)
    ensures Underscored(word + rest, gap) == word + Underscored(rest, false)
  {
    assert word[0] in word;
    assert (word + rest)[1..] == word[1..] + rest;
    if |word| > 1 {
      UnderscoredWord(word[1..], rest, false);
      assert word == [word[0]] + word[1..];
    } else {
      assert word[1..] + rest == rest;
    }
  }

  function LastGap(tokens: seq<Token>): string {
    if tokens == [] then "" else tokens[|tokens| - 1].gap
  }

  /** Replacing what stands between the words. */
  lemma {:induction false} UnderscoredTokens(tokens: seq<Token>, gap: bool)
    requires AreTokens(tokens)
    ensures Underscored(Spaced(tokens), gap) == Join(Words(tokens), "_") + if LastGap(tokens) == "" then "" else "_"
  {
    hide Underscored, NoWordChar, IsWord;
    if tokens == [] {
      UnderscoredGap("", "", gap);
      UnderscoredNothing(gap);
    } else {
      var word, between, later := tokens[0].word, tokens[0].gap, tokens[1..];
      UnderscoredWord(word, between + Spaced(later), gap);
      UnderscoredGap(between, Spaced(later), false);
      UnderscoredTokens(later, between != "");
      assert Words(tokens) == [word] + Words(later);
      if later == [] {
        UnderscoredNothing(between != "");
        assert Words(tokens) == [word];
      } else {
        assert Words(later) != [] && ([word] + Words(later))[1..] == Words(later);
        assert Join(Words(tokens), "_") == word + "_" + Join(Words(later), "_");
      }
    }
  }

  lemma UnderscoredNothing(gap: bool)
    ensures Underscored("", gap) == ""
  {
  }

  lemma {:induction false} JoinEnds(tokens: seq<Token>)
    requires tokens != [] && AreTokens(tokens)
    ensures var j := Join(Words(tokens), "_"); j != "" && IsWordChar(j[0]) && IsWordChar(j[|j| - 1])
  {
    var word := tokens[0].word;
    assert IsWord(word);
    assert word[0] in word && word[|word| - 1] in word;
    if |tokens| > 1 {
      JoinEnds(tokens[1..]);
      assert Words(tokens)[1..] == Words(tokens[1..]);
    }
  }

  lemma TrimEnds(pre: string, middle: string, post: string)
    requires (pre == "" || pre == "_") && (post == "" || post == "_")
    requires middle == "" || (middle[0] != '_' && middle[|middle| - 1] != '_')
    ensures TrimUnderscores(pre + (middle + post)) == middle
  {
    var all := pre + (middle + post);
    if middle == "" {
      TrimOnly(all);
    } else {
      if pre == "_" {
        assert all[1..] == middle + post;
      } else {
        assert all == middle + post;
      }
      var kept := middle + post;
      assert TrimUnderscores(middle) == middle;
      assert kept[0] == middle[0];
      if post == "_" {
        assert kept[|kept| - 1] == '_' && kept[..|kept| - 1] == middle;
      } else {
        assert kept == middle;
      }
      assert TrimUnderscores(kept) == middle;
    }
  }

  lemma {:induction false} TrimOnly(s: string)
    requires forall c :: c in s ==> c == '_'
    ensures TrimUnderscores(s) == ""
  {
    if s != "" {
      assert s[0] in s && forall c :: c in s[1..] ==> c in s;
      TrimOnly(s[1..]);
    }
  }

  /** The normal form of a key is its words with one underscore between any two, whatever stood around them. */
  lemma SlugIsWords(lead: string, tokens: seq<Token>)
    requires NoWordChar(lead) && AreTokens(tokens)
    ensures Slug(lead + Spaced(tokens)) == Join(Words(tokens), "_")
  {
    hide Underscored, TrimUnderscores, IsWord, NoWordChar;
    UnderscoredGap(lead, Spaced(tokens), false);
    UnderscoredTokens(tokens, lead != "");
    var post := if LastGap(tokens) == "" then "" else "_";
    if tokens != [] {
      JoinEnds(tokens);
    }
    TrimEnds(if lead == "" then "" else "_", Join(Words(tokens), "_"), post);
  }

  lemma WordGrows(c: char, word: string)
    requires IsWordChar(c) && (word == "" || IsWord(word))
    ensures IsWord([c] + word)
  {
  }

  lemma LetterContinues(c: char, tokens: seq<Token>)
    requires IsWordChar(c) && AreTokens(tokens) && tokens != []
    ensures var longer := [Token([c] + tokens[0].word, tokens[0].gap)] + tokens[1..];
            AreTokens(longer) && Spaced(longer) == [c] + Spaced(tokens)
  {
    hide IsWord, NoWordChar, IsWordChar;
    var first, later := tokens[0], tokens[1..];
    var longer := [Token([c] + first.word, first.gap)] + later;
    WordGrows(c, first.word);
    assert longer[1..] == later;
    assert forall i :: 0 < i < |longer| ==> longer[i] == tokens[i];
    Associative([c], first.word, first.gap + Spaced(later));
  }

  lemma LetterAlone(c: char, gap: string, tokens: seq<Token>)
    requires IsWordChar(c) && AreTokens(tokens) && NoWordChar(gap) && (tokens != [] ==> gap != "")
    ensures var more := [Token([c], gap)] + tokens;
            AreTokens(more) && Spaced(more) == [c] + (gap + Spaced(tokens))
  {
    var more := [Token([c], gap)] + tokens;
    assert more[1..] == tokens;
    assert forall i :: 0 < i < |more| ==> more[i] == tokens[i - 1];
  }

  /** Every text has words and gaps. */
  lemma {:induction false} Tokenised(s: string) returns (lead: string, tokens: seq<Token>)
    ensures NoWordChar(lead) && AreTokens(tokens) && s == lead + Spaced(tokens)
  {
    hide AreTokens, Spaced;
    if s == "" {
      EmptyTokens();
      return "", [];
    }
    var c := s[0];
    lead, tokens := Tokenised(s[1..]);
    assert s == [c] + (lead + Spaced(tokens));
    if !IsWordChar(c) {
      assert s == ([c] + lead) + Spaced(tokens);
      lead := [c] + lead;
    } else if lead == "" && tokens != [] {
      LetterContinues(c, tokens);
      assert lead + Spaced(tokens) == Spaced(tokens);
      tokens := [Token([c] + tokens[0].word, tokens[0].gap)] + tokens[1..];
      assert s == "" + Spaced(tokens);
    } else {
      LetterAlone(c, lead, tokens);
      lead, tokens := "", [Token([c], lead)] + tokens;
      assert s == "" + Spaced(tokens);
    }
  }

  lemma EmptyTokens()
    ensures AreTokens([]) && Spaced([]) == ""
  {
  }

  /** The normal form is empty exactly if there is no letter or digit; otherwise normalising it again changes nothing. */
  lemma SlugIsKey(lowered: string)
    ensures Slug(lowered) == "" <==> NoWordChar(lowered)
    ensures Slug(lowered) != "" ==> IsKey(Slug(lowered))
  {
    hide Slug;
    var lead, tokens := Tokenised(lowered);
    SlugIsWords(lead, tokens);
    if tokens == [] {
      assert lowered == lead;
    } else {
      JoinEnds(tokens);
      JoinIsKey(tokens);
      assert IsWord(tokens[0].word);
      assert tokens[0].word[0] in tokens[0].word && tokens[0].word[0] in lowered;
    }
  }

  lemma {:induction false} JoinIsKey(tokens: seq<Token>)
    requires tokens != [] && AreTokens(tokens)
    ensures IsKey(Join(Words(tokens), "_"))
  {
    var word, later := tokens[0].word, tokens[1..];
    assert IsWord(word);
    assert Words(tokens) == [word] + Words(later);
    assert Words(tokens)[1..] == Words(later);
    if later != [] {
      JoinIsKey(later);
      JoinEnds(later);
      WordBeforeKey(word, Join(Words(later), "_"));
    } else {
      WordIsKey(word);
    }
  }

  lemma WordIsKey(word: string)
    requires IsWord(word)
    ensures IsKey(word)
  {
    assert word[0] in word && word[|word| - 1] in word;
    assert forall i :: 0 <= i < |word| - 1 ==> word[i] in word;
  }

  lemma WordBeforeKey(word: string, key: string)
    requires IsWord(word) && IsKey(key)
    ensures IsKey(word + "_" + key)
  {
    var joined := word + "_" + key;
    WordIsKey(word);
    assert joined[|joined| - 1] == key[|key| - 1];
    forall i | 0 <= i < |joined| - 1
      ensures joined[i] != '_' || joined[i + 1] != '_'
    {
      if i < |word| {
        assert word[i] in word;
      } else if i > |word| {
        var k := i - |word| - 1;
        assert joined[i] == key[k] && joined[i + 1] == key[k + 1];
      }
    }
  }
}
