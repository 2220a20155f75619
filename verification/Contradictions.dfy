/** The grouping and contradiction loops of `run_case_analysis`. */
module Contradictions {
  import Strings
  import opened Records

  datatype Contradiction = Contradiction(key: string, sideA: Observation, sideB: Observation)

  /** The observations of one key, in source order. */
  function OfKey(observations: seq<Observation>, key: string): seq<Observation> {
    if observations == [] then []
    else (if observations[0].key == key then [observations[0]] else []) + OfKey(observations[1..], key)
  }

  lemma {:induction false} OfKeyMembers(observations: seq<Observation>, key: string)
    ensures forall o :: o in OfKey(observations, key) <==> o in observations && o.key == key
  {
    if observations != [] {
      OfKeyMembers(observations[1..], key);
      assert observations == [observations[0]] + observations[1..];
    }
  }

  lemma {:induction false} OfKeySnoc(observations: seq<Observation>, o: Observation, key: string)
    ensures OfKey(observations + [o], key) == OfKey(observations, key) + (if o.key == key then [o] else [])
  {
    if observations == [] {
      assert [] + [o] == [o];
    } else {
      var head, rest := if observations[0].key == key then [observations[0]] else [], observations[1..];
      assert (observations + [o])[1..] == rest + [o];
      OfKeySnoc(rest, o, key);
      assert OfKey(observations + [o], key) == head + OfKey(rest + [o], key);
      Strings.Associative(head, OfKey(rest, key), if o.key == key then [o] else []);
    }
  }

  /** Two observations of the key differ after case folding. */
  ghost predicate Disagree(observations: seq<Observation>, key: string, fold: string -> string) {
    exists x, y :: x in observations && y in observations && x.key == key && y.key == key
                   && fold(x.value) != fold(y.value)
  }

  /** Position `j` holds the first item that differs from the first one. */
  predicate FirstOther(items: seq<Observation>, j: nat, fold: string -> string) {
    && 0 < j < |items|
    && fold(items[j].value) != fold(items[0].value)
    && forall k :: 0 <= k < j ==> fold(items[k].value) == fold(items[0].value)
  }

  /** The inner loop: the first item of every folded value, in order of first appearance. */
  method DistinctValues(items: seq<Observation>, fold: string -> string) returns (values: seq<Observation>)
    requires items != []
    ensures values != [] && values[0] == items[0]
    ensures |values| == 1 <==> forall j :: 0 <= j < |items| ==> fold(items[j].value) == fold(items[0].value)
    ensures |values| > 1 ==> exists j: nat :: FirstOther(items, j, fold) && values[1] == items[j]
  {
    var distinct: map<string, Observation> := map[];
    values := [];
    ghost var second: nat := 0;
    for n := 0 to |items|
      invariant values == [] <==> n == 0
      invariant n == 0 ==> distinct == map[]
      invariant n > 0 ==> values[0] == items[0]
      invariant forall k :: 0 <= k < n ==> fold(items[k].value) in distinct
      invariant |values| <= 1 ==> forall f :: f in distinct ==> f == fold(items[0].value)
      invariant |values| > 1 ==> FirstOther(items, second, fold) && values[1] == items[second]
    {
      var item := items[n];
      if fold(item.value) !in distinct {
        if |values| == 1 {
          second := n;
        }
        distinct := distinct[fold(item.value) := item];
        values := values + [item];
      }
    }
  }

  /** What the two-sided test of one key amounts to. */
  lemma PairReported(observations: seq<Observation>, key: string, values: seq<Observation>, titled: set<string>,
                     fold: string -> string)
    requires OfKey(observations, key) != [] && values != []
    requires var items := OfKey(observations, key);
             && values[0] == items[0]
             && (|values| == 1 <==> forall j :: 0 <= j < |items| ==> fold(items[j].value) == fold(items[0].value))
             && (|values| > 1 ==> exists j: nat :: FirstOther(items, j, fold) && values[1] == items[j])
    ensures |values| > 1 <==> Disagree(observations, key, fold)
    ensures |values| > 1 && key in titled ==>
              Reported(observations, Contradiction(key, values[0], values[1]), titled, fold)
  {
    hide FirstOther, OfKey, Disagree;
    DisagreeIffOther(observations, key, fold);
  }

  /** What the pass has found once the keys of `done` are handled. */
  ghost predicate FoundFor(observations: seq<Observation>, done: seq<string>, found: seq<Contradiction>,
                           titled: set<string>, fold: string -> string)
  {
    && (forall c :: c in found ==> c.key in done && Reported(observations, c, titled, fold))
    && (forall key :: key in done && key in titled && Disagree(observations, key, fold) ==>
          exists c :: c in found && c.key == key)
    && forall i, j :: 0 <= i < j < |found| ==>
         FirstMention(observations, found[i].key) < FirstMention(observations, found[j].key)
  }

  lemma FoundNothing(observations: seq<Observation>, titled: set<string>, fold: string -> string)
    ensures FoundFor(observations, [], [], titled, fold)
  {
  }

  lemma FoundOneMore(observations: seq<Observation>, done: seq<string>, found: seq<Contradiction>,
                     titled: set<string>, fold: string -> string, c: Contradiction)
    requires FoundFor(observations, done, found, titled, fold)
    requires forall key :: key in done ==> FirstMention(observations, key) < FirstMention(observations, c.key)
    ensures Reported(observations, c, titled, fold) ==>
              FoundFor(observations, done + [c.key], found + [c], titled, fold)
    ensures !(c.key in titled && Disagree(observations, c.key, fold)) ==>
              FoundFor(observations, done + [c.key], found, titled, fold)
  {
    hide Reported, Disagree, FirstMention;
    var after, keys := found + [c], done + [c.key];
    assert forall x :: x in after <==> x in found || x == c;
    assert forall key :: key in keys <==> key in done || key == c.key;
    if Reported(observations, c, titled, fold) {
      forall i, j | 0 <= i < j < |after|
        ensures FirstMention(observations, after[i].key) < FirstMention(observations, after[j].key)
      {
        assert after[i] in found;
      }
      assert c in after;
    }
  }

  lemma FoundAll(observations: seq<Observation>, order: seq<string>, found: seq<Contradiction>, titled: set<string>,
                 fold: string -> string, key: string)
    requires FoundFor(observations, order, found, titled, fold)
    requires Disagree(observations, key, fold) ==> key in order
    ensures (exists c :: c in found && c.key == key) <==> key in titled && Disagree(observations, key, fold)
  {
    hide Reported, Disagree, FirstMention;
    forall c | c in found && c.key == key
      ensures key in titled && Disagree(observations, key, fold)
    {
      ReportedMeans(observations, c, titled, fold);
    }
  }

  /**
    The whole pass: group by key in order of first mention, keep titled keys with two distinct values.
    Sound and complete, one contradiction a key in that order, side A the first observation, side B the first that
    differs.
   */
  method FindContradictions(observations: seq<Observation>, titled: set<string>, fold: string -> string)
    returns (found: seq<Contradiction>)
    ensures forall key :: (exists c :: c in found && c.key == key)
                     <==> key in titled && Disagree(observations, key, fold)
    ensures forall i, j :: 0 <= i < j < |found| ==>
              FirstMention(observations, found[i].key) < FirstMention(observations, found[j].key)
    ensures forall c :: c in found ==> Reported(observations, c, titled, fold)
  {
    hide Disagree, OfKey, FirstOther, Reported, FirstMention;
    var order, grouped := GroupByKey(observations);
    found := [];
    FoundNothing(observations, titled, fold);
    for n := 0 to |order|
      invariant FoundFor(observations, order[..n], found, titled, fold)
    {
      hide FoundFor, Grouped;
      var key := order[n];
      GroupedItems(observations, grouped, key);
      var values := DistinctValues(grouped[key], fold);
      PairReported(observations, key, values, titled, fold);
      assert order[..n + 1] == order[..n] + [key];
      ghost var pair := Contradiction(key, values[0], if |values| > 1 then values[1] else values[0]);
      FoundOneMore(observations, order[..n], found, titled, fold, pair);
      if key in titled && |values| > 1 {
        found := found + [Contradiction(key, values[0], values[1])];
      }
    }
    assert order[..|order|] == order;
    forall key
      ensures (exists c :: c in found && c.key == key) <==> key in titled && Disagree(observations, key, fold)
    {
      if Disagree(observations, key, fold) {
        KeyGrouped(observations, key, grouped, fold);
      }
      FoundAll(observations, order, found, titled, fold, key);
    }
  }

  lemma GroupedItems(observations: seq<Observation>, grouped: map<string, seq<Observation>>, key: string)
    requires Grouped(observations, grouped) && key in grouped
    ensures grouped[key] == OfKey(observations, key) != []
  {
  }

  lemma KeyGrouped(
      observations: seq<Observation>, key: string, grouped: map<string, seq<Observation>>, fold: string -> string)
    requires Grouped(observations, grouped) && Disagree(observations, key, fold)
    ensures key in grouped
  {
    OfKeyMembers(observations, key);
  }

  /** A reported contradiction is titled and genuine, and names the right two sides. */
  ghost predicate Reported(observations: seq<Observation>, c: Contradiction, titled: set<string>, fold: string -> string) {
    var items := OfKey(observations, c.key);
    && c.key in titled
    && Disagree(observations, c.key, fold)
    && items != [] && c.sideA == items[0]
    && exists j: nat :: FirstOther(items, j, fold) && c.sideB == items[j]
  }

  lemma ReportedMeans(observations: seq<Observation>, c: Contradiction, titled: set<string>, fold: string -> string)
    requires Reported(observations, c, titled, fold)
    ensures c.key in titled && Disagree(observations, c.key, fold)
  {
  }

  lemma DisagreeIffOther(observations: seq<Observation>, key: string, fold: string -> string)
    requires OfKey(observations, key) != []
    ensures !Disagree(observations, key, fold)
       <==> forall j :: 0 <= j < |OfKey(observations, key)| ==>
                          fold(OfKey(observations, key)[j].value) == fold(OfKey(observations, key)[0].value)
  {
    var items := OfKey(observations, key);
    OfKeyMembers(observations, key);
    assert items[0] in items;
    forall j | 0 <= j < |items| && fold(items[j].value) != fold(items[0].value)
      ensures Disagree(observations, key, fold)
    {
      assert items[j] in items;
    }
    if Disagree(observations, key, fold) {
      var x, y :| x in observations && y in observations && x.key == key && y.key == key
                  && fold(x.value) != fold(y.value);
      assert x in items && y in items;
    }
  }

  /** The dictionary of lists holds, for every key seen, its observations in order. */
  ghost predicate Grouped(observations: seq<Observation>, grouped: map<string, seq<Observation>>) {
    && (forall key :: key in grouped ==> grouped[key] == OfKey(observations, key) && grouped[key] != [])
    && (forall key :: key !in grouped ==> OfKey(observations, key) == [])
  }

  lemma GroupedStep(observations: seq<Observation>, o: Observation, grouped: map<string, seq<Observation>>)
    requires Grouped(observations, grouped)
    ensures Grouped(observations + [o],
                    grouped[o.key := (if o.key in grouped then grouped[o.key] else []) + [o]])
  {
    forall key
      ensures OfKey(observations + [o], key) == OfKey(observations, key) + (if o.key == key then [o] else [])
    {
      OfKeySnoc(observations, o, key);
    }
  }

  /** `setdefault(key, []).append(o)` for every observation; `order` is the dictionary's insertion order. */
  method GroupByKey(observations: seq<Observation>)
    returns (order: seq<string>, grouped: map<string, seq<Observation>>)
    ensures InOrderOfMention(observations, order)
    ensures forall key :: key in order <==> key in grouped
    ensures Grouped(observations, grouped)
  {
    hide Grouped, InOrderOfMention;
    order, grouped := [], map[];
    GroupedNothing();
    NothingMentioned(observations);
    for n := 0 to |observations|
      invariant InOrderOfMention(observations, order)
      invariant forall key :: key in order ==> FirstMention(observations, key) < n
      invariant forall key :: key in order <==> key in grouped
      invariant Grouped(observations[..n], grouped)
    {
      var o := observations[n];
      assert observations[..n + 1] == observations[..n] + [o];
      GroupedStep(observations[..n], o, grouped);
      if o.key in grouped {
        grouped := grouped[o.key := grouped[o.key] + [o]];
      } else {
        NewKey(observations, n, grouped);
        MentionedNext(observations, order, o.key);
        order := order + [o.key];
        grouped := grouped[o.key := [] + [o]];
      }
    }
    assert observations[..|observations|] == observations;
  }

  /** The position of the first observation of the key, or the number of observations if there is none. */
  function FirstMention(observations: seq<Observation>, key: string): (n: nat)
    ensures n <= |observations|
  {
    if observations == [] || observations[0].key == key then 0 else 1 + FirstMention(observations[1..], key)
  }

  /** Each key is first mentioned after the keys before it. */
  predicate InOrderOfMention(observations: seq<Observation>, order: seq<string>) {
    forall i, j :: 0 <= i < j < |order| ==> FirstMention(observations, order[i]) < FirstMention(observations, order[j])
  }

  lemma NothingMentioned(observations: seq<Observation>)
    ensures InOrderOfMention(observations, [])
  {
  }

  lemma MentionedNext(observations: seq<Observation>, order: seq<string>, key: string)
    requires InOrderOfMention(observations, order)
    requires forall k :: k in order ==> FirstMention(observations, k) < FirstMention(observations, key)
    ensures InOrderOfMention(observations, order + [key])
  {
  }

  lemma {:induction false} FirstMentionAt(observations: seq<Observation>, n: nat, key: string)
    requires n < |observations| && observations[n].key == key
    requires OfKey(observations[..n], key) == []
    ensures FirstMention(observations, key) == n
  {
    if n > 0 {
      assert observations[..n][1..] == observations[1..][..n - 1];
      FirstMentionAt(observations[1..], n - 1, key);
    }
  }

  lemma NewKey(observations: seq<Observation>, n: nat, grouped: map<string, seq<Observation>>)
    requires n < |observations| && Grouped(observations[..n], grouped) && observations[n].key !in grouped
    ensures FirstMention(observations, observations[n].key) == n
  {
    FirstMentionAt(observations, n, observations[n].key);
  }

  lemma GroupedNothing()
    ensures Grouped([], map[])
  {
  }
}
