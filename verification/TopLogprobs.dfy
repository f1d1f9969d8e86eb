/** The log probabilities reported for the top tokens: tokens and values are taken from two orders. */
module TopLogprobs {
  import opened Sampler

  function Insert(x: Token, sorted: seq<Token>, probs: seq<real>): seq<Token>
    requires x < |probs| && InRange(sorted, |probs|)
  {
    if sorted != [] && probs[sorted[0]] > probs[x] then [sorted[0]] + Insert(x, sorted[1..], probs) else [x] + sorted
  }

  /** The stable sort by descending probability: equal ones keep their order. */
  function StableSort(toks: seq<Token>, probs: seq<real>): (sorted: seq<Token>)
    requires InRange(toks, |probs|)
    ensures |sorted| == |toks| && InRange(sorted, |probs|)
  {
    if toks == [] then [] else
      var rest := StableSort(toks[1..], probs);
      InsertKeeps(toks[0], rest, probs);
      Insert(toks[0], rest, probs)
  }

  lemma {:induction false} InsertKeeps(x: Token, sorted: seq<Token>, probs: seq<real>)
    requires x < |probs| && InRange(sorted, |probs|)
    ensures |Insert(x, sorted, probs)| == |sorted| + 1
    ensures InRange(Insert(x, sorted, probs), |probs|)
    decreases |sorted|
  {
    if sorted != [] && probs[sorted[0]] > probs[x] {
      InsertKeeps(x, sorted[1..], probs);
    }
  }

  /** The tokens of one probability, in the order in which they stand. */
  function OfProb(toks: seq<Token>, probs: seq<real>, p: real): seq<Token>
    requires InRange(toks, |probs|)
  {
    if toks == [] then []
    else
      var rest := OfProb(toks[1..], probs, p);
      if probs[toks[0]] == p then [toks[0]] + rest else rest
  }

  lemma {:induction false} InsertSorts(x: Token, sorted: seq<Token>, probs: seq<real>)
    requires x < |probs| && InRange(sorted, |probs|) && Descends(sorted, probs)
    ensures InRange(Insert(x, sorted, probs), |probs|) && Descends(Insert(x, sorted, probs), probs)
    decreases |sorted|
  {
    InsertKeeps(x, sorted, probs);
    if sorted != [] && probs[sorted[0]] > probs[x] {
      InsertSorts(x, sorted[1..], probs);
    }
  }

  lemma {:induction false} InsertAdds(x: Token, sorted: seq<Token>, probs: seq<real>)
    requires x < |probs| && InRange(sorted, |probs|)
    ensures multiset(Insert(x, sorted, probs)) == multiset([x] + sorted)
    decreases |sorted|
  {
    if sorted != [] && probs[sorted[0]] > probs[x] {
      assert sorted == [sorted[0]] + sorted[1..];
      InsertAdds(x, sorted[1..], probs);
    }
  }

  lemma {:induction false} InsertIsStable(x: Token, sorted: seq<Token>, probs: seq<real>, p: real)
    requires x < |probs| && InRange(sorted, |probs|)
    ensures InRange(Insert(x, sorted, probs), |probs|)
    ensures OfProb(Insert(x, sorted, probs), probs, p) == OfProb([x] + sorted, probs, p)
    decreases |sorted|
  {
    InsertKeeps(x, sorted, probs);
    assert ([x] + sorted)[1..] == sorted;
    if sorted != [] && probs[sorted[0]] > probs[x] {
      InsertIsStable(x, sorted[1..], probs, p);
      assert ([x] + sorted[1..])[1..] == sorted[1..];
    }
  }

  /** No token is less likely than the next one. */
  predicate Descends(toks: seq<Token>, probs: seq<real>)
    requires InRange(toks, |probs|)
  {
    |toks| <= 1 || (probs[toks[0]] >= probs[toks[1]] && Descends(toks[1..], probs))
  }

  lemma {:induction false} DescendsIsSorted(toks: seq<Token>, probs: seq<real>)
    requires InRange(toks, |probs|) && Descends(toks, probs)
    ensures Sorted(Ranked(probs, toks))
    decreases |toks|
  {
    var w := Ranked(probs, toks);
    if |toks| > 1 {
      DescendsIsSorted(toks[1..], probs);
      var rest := Ranked(probs, toks[1..]);
      forall r, q | 0 <= r < q < |w| ensures w[r] >= w[q] {
        assert w[q] == rest[q - 1] && rest[0] >= rest[q - 1];
        if r > 0 {
          assert w[r] == rest[r - 1] >= rest[q - 1];
        }
      }
    }
  }

  /** It is a sort of the same tokens by descending probability, and it is stable. */
  lemma {:induction false} StableSortSorts(toks: seq<Token>, probs: seq<real>, p: real)
    requires InRange(toks, |probs|)
    ensures Descends(StableSort(toks, probs), probs) && Sorted(Ranked(probs, StableSort(toks, probs)))
    ensures multiset(StableSort(toks, probs)) == multiset(toks)
    ensures OfProb(StableSort(toks, probs), probs, p) == OfProb(toks, probs, p)
    decreases |toks|
  {
    if toks != [] {
      var sorted := StableSort(toks[1..], probs);
      StableSortSorts(toks[1..], probs, p);
      InsertSorts(toks[0], sorted, probs);
      InsertAdds(toks[0], sorted, probs);
      InsertIsStable(toks[0], sorted, probs, p);
      assert toks == [toks[0]] + toks[1..] && ([toks[0]] + sorted)[1..] == sorted;
    }
    DescendsIsSorted(StableSort(toks, probs), probs);
  }

  /** The n reported pairs: tokens in the order of the ranking, values in the order of the sort. */
  function TopLogprobs(probs: seq<real>, ranking: seq<Token>, n: nat, log: real -> real): seq<(Token, real)>
    requires n <= |ranking| && InRange(ranking, |probs|)
  {
    var sorted := StableSort(ranking, probs);
    seq(n, i requires 0 <= i < n => (ranking[i], log(probs[sorted[i]])))
  }

  // The same sort on the values alone.

  function InsertValue(x: real, sorted: seq<real>): seq<real> {
    if sorted != [] && sorted[0] > x then [sorted[0]] + InsertValue(x, sorted[1..]) else [x] + sorted
  }

  function SortValues(values: seq<real>): seq<real> {
    if values == [] then [] else InsertValue(values[0], SortValues(values[1..]))
  }

  lemma {:induction false} InsertOnValues(x: Token, sorted: seq<Token>, probs: seq<real>)
    requires x < |probs| && InRange(sorted, |probs|)
    ensures InRange(Insert(x, sorted, probs), |probs|) && |Insert(x, sorted, probs)| == |sorted| + 1
    ensures Ranked(probs, Insert(x, sorted, probs)) == InsertValue(probs[x], Ranked(probs, sorted))
    decreases |sorted|
  {
    InsertKeeps(x, sorted, probs);
    if sorted != [] {
      assert Ranked(probs, sorted)[1..] == Ranked(probs, sorted[1..]);
      if probs[sorted[0]] > probs[x] {
        InsertOnValues(x, sorted[1..], probs);
      }
    }
  }

  lemma {:induction false} SortOnValues(toks: seq<Token>, probs: seq<real>)
    requires InRange(toks, |probs|)
    ensures Ranked(probs, StableSort(toks, probs)) == SortValues(Ranked(probs, toks))
    decreases |toks|
  {
    if toks != [] {
      SortOnValues(toks[1..], probs);
      InsertOnValues(toks[0], StableSort(toks[1..], probs), probs);
      assert Ranked(probs, toks)[1..] == Ranked(probs, toks[1..]);
    }
  }

  lemma {:induction false} InsertValueFacts(x: real, sorted: seq<real>)
    ensures |InsertValue(x, sorted)| == |sorted| + 1
    ensures InsertValue(x, sorted)[0] == if sorted != [] && sorted[0] > x then sorted[0] else x
    ensures sorted == [] || sorted[0] <= x ==> InsertValue(x, sorted) == [x] + sorted
    decreases |sorted|
  {
    if sorted != [] && sorted[0] > x {
      InsertValueFacts(x, sorted[1..]);
    }
  }

  /** Sorting brings a largest value to the front. */
  lemma {:induction false} SortedHeadIsLargest(values: seq<real>)
    ensures |SortValues(values)| == |values|
    ensures values != [] ==> SortValues(values)[0] in values && forall y <- values :: SortValues(values)[0] >= y
    decreases |values|
  {
    if values != [] {
      var rest := values[1..];
      SortedHeadIsLargest(rest);
      InsertValueFacts(values[0], SortValues(rest));
      assert values == [values[0]] + rest;
      assert rest == [] <==> SortValues(rest) == [];
    }
  }

  /** The first n values stay in place exactly if none of them is less than a later one. */
  lemma {:induction false} SortKeepsFirst(values: seq<real>, n: nat)
    requires n <= |values|
    ensures |SortValues(values)| == |values|
    ensures (forall i :: 0 <= i < n ==> SortValues(values)[i] == values[i])
       <==> (forall i, j :: 0 <= i < n && i < j < |values| ==> values[i] >= values[j])
    decreases |values|
  {
    SortedHeadIsLargest(values);
    if n > 0 {
      var rest, sorted := values[1..], SortValues(values[1..]);
      SortKeepsFirst(rest, n - 1);
      SortedHeadIsLargest(rest);
      InsertValueFacts(values[0], sorted);
      if rest == [] || sorted[0] <= values[0] {
        assert forall j :: 0 <= j < |rest| ==> rest[j] == values[j + 1];
        SortKeepsFirstStep(values, n);
      } else {
        var j :| 0 <= j < |rest| && rest[j] == sorted[0];
        assert values[j + 1] > values[0];
      }
    }
  }

  lemma SortKeepsFirstStep(values: seq<real>, n: nat)
    requires 0 < n <= |values| && |SortValues(values[1..])| == |values| - 1
    requires SortValues(values) == [values[0]] + SortValues(values[1..])
    requires forall y <- values[1..] :: values[0] >= y
    requires (forall i :: 0 <= i < n - 1 ==> SortValues(values[1..])[i] == values[1..][i])
        <==> (forall i, j :: 0 <= i < n - 1 && i < j < |values| - 1 ==> values[1..][i] >= values[1..][j])
    ensures (forall i :: 0 <= i < n ==> SortValues(values)[i] == values[i])
       <==> (forall i, j :: 0 <= i < n && i < j < |values| ==> values[i] >= values[j])
  {
    var rest, sorted := values[1..], SortValues(values[1..]);
    if forall i :: 0 <= i < n ==> SortValues(values)[i] == values[i] {
      forall i | 0 <= i < n - 1 ensures sorted[i] == rest[i] {
        assert SortValues(values)[i + 1] == values[i + 1];
      }
      forall i, j | 0 <= i < n && i < j < |values| ensures values[i] >= values[j] {
        if i == 0 {
          assert rest[j - 1] in rest;
        } else {
          assert rest[i - 1] >= rest[j - 1];
        }
      }
    }
    if forall i, j :: 0 <= i < n && i < j < |values| ==> values[i] >= values[j] {
      forall i, j | 0 <= i < n - 1 && i < j < |values| - 1 ensures rest[i] >= rest[j] {
        assert values[i + 1] >= values[j + 1];
      }
      forall i | 0 <= i < n ensures SortValues(values)[i] == values[i] {
        if i > 0 {
          assert sorted[i - 1] == rest[i - 1];
        }
      }
    }
  }

  /** Every reported token comes with its own probability exactly if no reported token is less likely than one ranked
      behind it. */
  lemma TopLogprobsPairing(probs: seq<real>, ranking: seq<Token>, n: nat)
    requires n <= |ranking| && InRange(ranking, |probs|)
    ensures TopLogprobs(probs, ranking, n, x => x) == seq(n, i requires 0 <= i < n => (ranking[i], probs[ranking[i]]))
       <==> (forall i, j :: 0 <= i < n && i < j < |ranking| ==> probs[ranking[i]] >= probs[ranking[j]])
  {
    var values, sorted := Ranked(probs, ranking), StableSort(ranking, probs);
    SortOnValues(ranking, probs);
    SortKeepsFirst(values, n);
    var reported := TopLogprobs(probs, ranking, n, x => x);
    var own := seq(n, i requires 0 <= i < n => (ranking[i], probs[ranking[i]]));
    assert forall i :: 0 <= i < n ==>
             reported[i].1 == Ranked(probs, sorted)[i] && own[i].1 == values[i] && reported[i].0 == own[i].0;
    if reported == own {
      assert forall i :: 0 <= i < n ==> reported[i].1 == own[i].1;
    }
    assert forall i :: 0 <= i < |ranking| ==> values[i] == probs[ranking[i]];
  }

  /** Both filters keep the probabilities non-increasing along the ranking, whatever the bounds. */
  lemma FiltersStaySorted(w: seq<real>, topK: int, topP: real, minP: real)
    requires w != [] && Sorted(w) && NonNegative(w)
    ensures Sorted(SamplingFilter(w, topK, topP, minP))
    ensures Sorted(SpeculativeFilter(w, topK, topP, minP))
  {
    var k := TopK(w, topK);
    var p := TopP(k, topP);
    assert Sorted(k) && NonNegative(k);
    assert Sorted(p) && NonNegative(p);
  }

  /** So for callers that pass a ranking by probability, every reported token carries its own log probability. */
  lemma ReportedLogprobsAreOwn(probs: seq<real>, filtered: seq<real>, ranking: seq<Token>, topK: int, topP: real,
                               minP: real, n: nat, log: real -> real)
    requires |probs| == |filtered| && IsRanking(ranking, |probs|) && n <= |ranking| && ranking != []
    requires Sorted(Ranked(probs, ranking)) && NonNegative(Ranked(probs, ranking))
    requires Ranked(filtered, ranking) == SamplingFilter(Ranked(probs, ranking), topK, topP, minP)
          || Ranked(filtered, ranking) == SpeculativeFilter(Ranked(probs, ranking), topK, topP, minP)
    ensures TopLogprobs(filtered, ranking, n, log)
              == seq(n, i requires 0 <= i < n => (ranking[i], log(filtered[ranking[i]])))
  {
    FiltersStaySorted(Ranked(probs, ranking), topK, topP, minP);
    var w := Ranked(filtered, ranking);
    forall i, j | 0 <= i < n && i < j < |ranking| ensures filtered[ranking[i]] >= filtered[ranking[j]] {
      assert w[i] >= w[j];
    }
    TopLogprobsPairing(filtered, ranking, n);
    var paired := TopLogprobs(filtered, ranking, n, x => x);
    forall i | 0 <= i < n ensures TopLogprobs(filtered, ranking, n, log)[i] == (ranking[i], log(filtered[ranking[i]])) {
      assert paired[i].1 == filtered[ranking[i]];
    }
  }
}
