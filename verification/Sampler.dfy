/** Top-k, top-p and min-p filtering of probabilities along a ranking. */
module Sampler {
  import opened Common

  type Token = nat

  predicate InRange(toks: seq<Token>, n: nat) { forall r :: 0 <= r < |toks| ==> toks[r] < n }

  /** What sorting the indices of n probabilities yields: each of them once. */
  ghost predicate IsRanking(ranking: seq<Token>, n: nat) {
    && |ranking| == n
    && InRange(ranking, n)
    && (forall r, s :: 0 <= r < s < n ==> ranking[r] != ranking[s])
    && (forall t: Token :: t < n ==> t in ranking)
  }

  /** The probabilities in the order of the ranking. */
  ghost function Ranked(probs: seq<real>, ranking: seq<Token>): (w: seq<real>)
    requires InRange(ranking, |probs|)
    ensures |w| == |ranking| && forall r :: 0 <= r < |w| ==> w[r] == probs[ranking[r]]
  {
    seq(|ranking|, r requires 0 <= r < |ranking| => probs[ranking[r]])
  }

  /** Probabilities in ranked order determine the probabilities. */
  lemma RankedDetermines(p: seq<real>, q: seq<real>, ranking: seq<Token>)
    requires |p| == |q| && IsRanking(ranking, |p|) && Ranked(p, ranking) == Ranked(q, ranking)
    ensures p == q
  {
    forall t: Token | t < |p| ensures p[t] == q[t] {
      assert t in ranking;
      var r :| 0 <= r < |ranking| && ranking[r] == t;
      assert Ranked(p, ranking)[r] == Ranked(q, ranking)[r];
    }
  }

  // ----- the filters in ranked order

  function Sum(w: seq<real>): real {
    if w == [] then 0.0 else Sum(w[..|w| - 1]) + w[|w| - 1]
  }

  lemma SumOneMore(w: seq<real>, i: nat)
    requires i < |w|
    ensures Sum(w[..i + 1]) == Sum(w[..i]) + w[i]
  {
    assert w[..i + 1][..i] == w[..i];
  }

  /** Sums add up, over any split. */
  lemma {:induction false} SumSplits(a: seq<real>, b: seq<real>)
    ensures Sum(a + b) == Sum(a) + Sum(b)
    ensures Sum([]) == 0.0 && forall x: real :: Sum([x]) == x
    decreases |b|
  {
    if b == [] {
      assert a + b == a;
    } else {
      var n := |b| - 1;
      SumSplits(a, b[..n]);
      assert (a + b)[..|a + b| - 1] == a + b[..n];
    }
    forall x: real ensures Sum([x]) == x {
      assert [x][..0] == [];
    }
  }

  lemma SumNothing(w: seq<real>)
    ensures Sum(w[..0]) == 0.0
  {
  }

  /** The first n values, and zeros. */
  function KeepFirst(w: seq<real>, n: nat): (q: seq<real>)
    ensures |q| == |w| && forall r :: 0 <= r < |w| ==> q[r] == if r < n then w[r] else 0.0
  {
    seq(|w|, r requires 0 <= r < |w| => if r < n then w[r] else 0.0)
  }

  function TopKCount(topK: int, n: nat): nat {
    if topK > 0 then Min(topK, n) else n
  }

  /** The least m, from a given one on, for which the first m values sum up to topP, or all of them. */
  function NucleusFrom(w: seq<real>, topP: real, m: nat): (r: nat)
    requires m <= |w|
    ensures m <= r <= |w|
    ensures forall j :: m <= j < r ==> Sum(w[..j]) < topP
    ensures r < |w| ==> Sum(w[..r]) >= topP
    decreases |w| - m
  {
    if m == |w| || Sum(w[..m]) >= topP then m else NucleusFrom(w, topP, m + 1)
  }

  function Nucleus(w: seq<real>, topP: real): (r: nat)
    ensures r <= |w|
    ensures forall j :: 0 <= j < r ==> Sum(w[..j]) < topP
    ensures r < |w| ==> Sum(w[..r]) >= topP
  {
    NucleusFrom(w, topP, 0)
  }

  /** Zeroes what does not exceed the floor. */
  function AboveFloor(w: seq<real>, floor: real): (q: seq<real>)
    ensures |q| == |w| && forall r :: 0 <= r < |w| ==> q[r] == if floor >= w[r] then 0.0 else w[r]
  {
    seq(|w|, r requires 0 <= r < |w| => if floor >= w[r] then 0.0 else w[r])
  }

  function TopK(w: seq<real>, topK: int): seq<real> { KeepFirst(w, TopKCount(topK, |w|)) }

  function TopP(w: seq<real>, topP: real): seq<real> { KeepFirst(w, Nucleus(w, topP)) }

  function Floor(head: real, minP: real): real { head * minP }

  function MinP(w: seq<real>, minP: real): seq<real>
    requires w != []
  {
    AboveFloor(w, Floor(w[0], minP))
  }

  /** The weights that sampling draws from. */
  function SamplingFilter(w: seq<real>, topK: int, topP: real, minP: real): seq<real>
    requires w != []
  {
    var k := TopK(w, topK);
    if topP <= 0.0 || topP >= 1.0 then k
    else
      var p := TopP(k, topP);
      if minP <= 0.0 || minP >= 1.0 then p else MinP(p, minP)
  }

  /** The weights of which speculative decoding takes the largest. */
  function SpeculativeFilter(w: seq<real>, topK: int, topP: real, minP: real): seq<real>
    requires w != []
  {
    MinP(TopP(TopK(w, topK), topP), minP)
  }

  ghost predicate Sorted(w: seq<real>) { forall r, s :: 0 <= r < s < |w| ==> w[r] >= w[s] }

  ghost predicate NonNegative(w: seq<real>) { forall r :: 0 <= r < |w| ==> w[r] >= 0.0 }

  /** What a softmax in ranked order is. */
  ghost predicate IsDistribution(w: seq<real>) {
    w != [] && Sorted(w) && NonNegative(w) && w[0] > 0.0 && Sum(w) <= 1.0
  }

  lemma {:induction false} SumKeepFirst(w: seq<real>, n: nat, m: nat)
    requires m <= |w|
    ensures Sum(KeepFirst(w, n)[..m]) == Sum(w[..Min(n, m)])
    decreases m
  {
    var q := KeepFirst(w, n);
    if m > 0 {
      SumKeepFirst(w, n, m - 1);
      assert q[..m][..m - 1] == q[..m - 1];
      if m <= n {
        assert w[..m][..m - 1] == w[..m - 1];
      }
    }
  }

  /** The top-p filter behind the top-k filter keeps the smallest prefix within the top k whose mass reaches topP, or
      the whole top k when none does. */
  lemma NucleusWithinTopK(w: seq<real>, topK: int, topP: real)
    ensures TopP(TopK(w, topK), topP) == KeepFirst(w, Nucleus(w[..TopKCount(topK, |w|)], topP))
  {
    var k := TopKCount(topK, |w|);
    var q, m, n := TopK(w, topK), Nucleus(w[..k], topP), Nucleus(TopK(w, topK), topP);
    forall j: nat | j <= |w| ensures Sum(q[..j]) == Sum(w[..k][..Min(k, j)]) {
      SumKeepFirst(w, k, j);
      assert w[..k][..Min(k, j)] == w[..Min(k, j)];
    }
    hide Nucleus, KeepFirst, Sum;
    if m < k {
      assert Sum(q[..m]) >= topP;
      assert n == m;
    } else {
      assert n >= k;
    }
    assert TopP(q, topP) == KeepFirst(w, m);
  }

  lemma SumMonotone(w: seq<real>, i: nat, j: nat)
    requires NonNegative(w) && i <= j <= |w|
    ensures Sum(w[..i]) <= Sum(w[..j])
    decreases j
  {
    if i < j {
      SumMonotone(w, i, j - 1);
      assert w[..j][..j - 1] == w[..j - 1];
    }
  }

  /** How many values in front exceed the floor. */
  function Survivors(w: seq<real>, floor: real): (s: nat)
    ensures s <= |w| && (forall r :: 0 <= r < s ==> w[r] > floor) && (s < |w| ==> w[s] <= floor)
  {
    if w == [] || w[0] <= floor then 0 else 1 + Survivors(w[1..], floor)
  }

  lemma FloorKeepsPrefix(w: seq<real>, m: nat, floor: real)
    requires Sorted(w) && m <= |w| && floor >= 0.0
    ensures AboveFloor(KeepFirst(w, m), floor) == KeepFirst(w, Survivors(w[..m], floor))
  {
    hide KeepFirst, AboveFloor, Survivors;
    var s := Survivors(w[..m], floor);
    forall r | 0 <= r < |w| ensures AboveFloor(KeepFirst(w, m), floor)[r] == KeepFirst(w, s)[r] {
      assert s < m ==> w[..m][s] == w[s];
    }
  }

  /** With both bounds strictly between 0 and 1 exactly a non-empty prefix of the ranking survives, unchanged: of the
      smallest prefix within the top k that reaches topP, the values above minP times the largest one; and the largest
      one is among them. */
  lemma SamplingKeepsPrefix(w: seq<real>, topK: int, topP: real, minP: real)
    requires w != [] && Sorted(w) && NonNegative(w) && w[0] > 0.0 && 0.0 < topP < 1.0 && 0.0 < minP < 1.0
    ensures var m := Nucleus(w[..TopKCount(topK, |w|)], topP);
            var s := Survivors(w[..m], Floor(w[0], minP));
            0 < s <= m <= TopKCount(topK, |w|) && Floor(w[0], minP) > 0.0 &&
            SamplingFilter(w, topK, topP, minP) == KeepFirst(w, s) &&
            forall r :: 0 <= r < m ==> (r < s <==> w[r] > Floor(w[0], minP))
  {
    hide Floor, KeepFirst, AboveFloor, Survivors, Nucleus;
    FloorBelowHead(w[0], minP);
    NucleusWithinTopK(w, topK, topP);
    NucleusHoldsHead(w, topK, topP);
    PrefixAboveFloor(w, topK, topP, Floor(w[0], minP));
  }

  lemma PrefixAboveFloor(w: seq<real>, topK: int, topP: real, floor: real)
    requires w != [] && Sorted(w) && NonNegative(w) && topP > 0.0 && 0.0 < floor < w[0]
    ensures var m := Nucleus(w[..TopKCount(topK, |w|)], topP);
            var s := Survivors(w[..m], floor);
            0 < s <= m <= TopKCount(topK, |w|) &&
            AboveFloor(TopP(TopK(w, topK), topP), floor) == KeepFirst(w, s) &&
            forall r :: 0 <= r < m ==> (r < s <==> w[r] > floor)
  {
    hide KeepFirst, AboveFloor, Survivors, Nucleus;
    var m := Nucleus(w[..TopKCount(topK, |w|)], topP);
    NucleusWithinTopK(w, topK, topP);
    NucleusHoldsHead(w, topK, topP);
    FloorKeepsPrefix(w, m, floor);
    var s := Survivors(w[..m], floor);
    forall r | 0 <= r < m ensures r < s <==> w[r] > floor {
      assert s < m ==> w[..m][s] == w[s];
      assert w[..m][r] == w[r];
    }
    assert w[..m][0] == w[0];
  }

  lemma NucleusHoldsHead(w: seq<real>, topK: int, topP: real)
    requires w != [] && topP > 0.0
    ensures Nucleus(w[..TopKCount(topK, |w|)], topP) > 0
  {
  }

  lemma FloorBelowHead(head: real, minP: real)
    requires head > 0.0
    ensures minP < 1.0 <==> Floor(head, minP) < head
    ensures minP > 0.0 <==> Floor(head, minP) > 0.0
  {
    var below, floor := 1.0 - minP, Floor(head, minP);
    SignOfProduct(head, minP);
    SignOfProduct(head, below);
    var gap := head * below;
    assert gap == head - floor by { Distribute(head, minP); }
    assert gap > 0.0 <==> below > 0.0;
  }

  lemma Distribute(a: real, b: real)
    ensures a * (1.0 - b) == a - a * b
  {
  }

  lemma SignOfProduct(a: real, b: real)
    requires a > 0.0
    ensures a * b > 0.0 <==> b > 0.0
  {
    if b > 0.0 {
      assert a * b > 0.0;
    } else {
      assert a * (-b) >= 0.0;
      assert a * b == -(a * (-b));
    }
  }

  /** With the bound of min-p out of its range, top-p alone is left; with that of top-p out of its range, top-k
      alone. */
  lemma BoundsOutOfRange(w: seq<real>, topK: int, topP: real, minP: real)
    requires w != []
    ensures topP <= 0.0 || topP >= 1.0 ==> SamplingFilter(w, topK, topP, minP) == KeepFirst(w, TopKCount(topK, |w|))
    ensures 0.0 < topP < 1.0 && (minP <= 0.0 || minP >= 1.0) ==>
              SamplingFilter(w, topK, topP, minP) == KeepFirst(w, Nucleus(w[..TopKCount(topK, |w|)], topP))
  {
    NucleusWithinTopK(w, topK, topP);
  }

  // ----- sampling and speculative decoding

  /** When the two filters are the same, whatever the probabilities. */
  predicate SameFilters(topK: int, topP: real, minP: real) {
    topP > 0.0 && minP < 1.0 && (topP < 1.0 || minP <= 0.0 || topK == 1)
  }

  lemma FiltersAgree(w: seq<real>, topK: int, topP: real, minP: real)
    requires IsDistribution(w) && SameFilters(topK, topP, minP)
    ensures SamplingFilter(w, topK, topP, minP) == SpeculativeFilter(w, topK, topP, minP)
  {
    hide Floor, KeepFirst, AboveFloor, Nucleus, Sum;
    var k := TopKCount(topK, |w|);
    var m := Nucleus(w[..k], topP);
    NucleusWithinTopK(w, topK, topP);
    NucleusHoldsHead(w, topK, topP);
    if topP >= 1.0 {
      FullNucleusKeepsAll(w, topK, topP);
    }
    if minP <= 0.0 || topP >= 1.0 {
      var kept := if topP >= 1.0 then k else m;
      LowFloorKeepsAll(w, kept, minP);
    }
  }

  lemma LowFloorKeepsAll(w: seq<real>, n: nat, minP: real)
    requires w != [] && NonNegative(w) && w[0] > 0.0 && 0 < n && minP < 1.0 && (minP <= 0.0 || n == 1)
    ensures MinP(KeepFirst(w, n), minP) == KeepFirst(w, n)
  {
    FloorBelowHead(w[0], minP);
    LowFloorZeroesNothing(w, n, Floor(w[0], minP));
  }

  lemma LowFloorZeroesNothing(w: seq<real>, n: nat, floor: real)
    requires w != [] && NonNegative(w) && 0 < n && floor < w[0] && (floor <= 0.0 || n == 1)
    ensures AboveFloor(KeepFirst(w, n), floor) == KeepFirst(w, n)
  {
  }

  lemma FullNucleusKeepsAll(w: seq<real>, topK: int, topP: real)
    requires IsDistribution(w) && topP >= 1.0
    ensures TopP(TopK(w, topK), topP) == TopK(w, topK)
  {
    var k := TopKCount(topK, |w|);
    var m := Nucleus(w[..k], topP);
    NucleusWithinTopK(w, topK, topP);
    if m < k {
      assert w[..k][..m] == w[..m];
      forall r | m <= r < k ensures w[r] == 0.0 {
        NothingBehindFullMass(w, m, r);
      }
    }
  }

  lemma NothingBehindFullMass(w: seq<real>, m: nat, r: nat)
    requires NonNegative(w) && m <= r < |w| && Sum(w[..m]) >= Sum(w)
    ensures w[r] == 0.0
  {
    hide Sum;
    SumMonotone(w, m, r);
    SumMonotone(w, r + 1, |w|);
    SumOneMore(w, r);
    assert w[..|w|] == w;
  }

  /** And when they are not, some probabilities tell them apart. */
  lemma FiltersDiffer(topK: int, topP: real, minP: real) returns (w: seq<real>)
    requires !SameFilters(topK, topP, minP)
    ensures IsDistribution(w) && SamplingFilter(w, topK, topP, minP) != SpeculativeFilter(w, topK, topP, minP)
  {
    if topP <= 0.0 || minP >= 1.0 {
      w := [1.0];
      OneTokenDiffers(topK, topP, minP);
    } else {
      var head := 1.0 / (1.0 + minP);
      assert head + head * minP == head * (1.0 + minP) == 1.0;
      FloorBelowHead(head, minP);
      w := [head, Floor(head, minP)];
      TwoTokensDiffer(head, topK, topP, minP);
    }
  }

  lemma OneTokenDiffers(topK: int, topP: real, minP: real)
    requires topP <= 0.0 || minP >= 1.0
    ensures IsDistribution([1.0])
    ensures SamplingFilter([1.0], topK, topP, minP) != SpeculativeFilter([1.0], topK, topP, minP)
  {
  }

  lemma TwoTokensDiffer(head: real, topK: int, topP: real, minP: real)
    requires topP >= 1.0 && 0.0 < minP && topK != 1 && 0.0 < Floor(head, minP) < head && head + Floor(head, minP) == 1.0
    ensures var w := [head, Floor(head, minP)];
            IsDistribution(w) && SamplingFilter(w, topK, topP, minP) != SpeculativeFilter(w, topK, topP, minP)
  {
    hide Floor;
    var floor := Floor(head, minP);
    var w := [head, floor];
    assert w[..1] == [head] && w[..0] == [] && w[..2] == w && [head][..0] == [];
    SumSplits([head], [floor]);
    assert [head] + [floor] == w && Sum([head]) == head && Sum(w) == head + floor;
    assert TopK(w, topK) == w;
    assert TopP(w, topP) == w;
    assert SpeculativeFilter(w, topK, topP, minP)[1] == AboveFloor(w, floor)[1] == 0.0;
    assert SamplingFilter(w, topK, topP, minP)[1] == floor;
  }

  /** The speculative pick, a token of largest filtered weight, is a token of largest probability, and sampling can draw
      it. */
  lemma SpeculativePickIsTop(w: seq<real>, topK: int, topP: real, minP: real, pick: nat)
    requires IsDistribution(w) && 0.0 < topP < 1.0 && 0.0 < minP < 1.0 && pick < |w|
    requires forall r :: 0 <= r < |w| ==>
               SpeculativeFilter(w, topK, topP, minP)[pick] >= SpeculativeFilter(w, topK, topP, minP)[r]
    ensures forall r :: 0 <= r < |w| ==> w[pick] >= w[r]
    ensures SamplingFilter(w, topK, topP, minP)[pick] == w[pick] > 0.0
  {
    hide KeepFirst, AboveFloor, Nucleus, Sum, Survivors, SamplingFilter, SpeculativeFilter;
    FiltersAgree(w, topK, topP, minP);
    SamplingKeepsPrefix(w, topK, topP, minP);
    var q := SamplingFilter(w, topK, topP, minP);
    assert q[pick] >= q[0] == w[0];
  }

  /** A token of maximal probability, which keeps that probability as its weight when sampling filters the same. */
  ghost predicate IsTopPick(probs: seq<real>, ranking: seq<Token>, topK: int, topP: real, minP: real, pick: Token)
    requires IsRanking(ranking, |probs|) && ranking != []
  {
    && pick < |probs|
    && (forall t :: 0 <= t < |probs| ==> probs[pick] >= probs[t])
    && (forall r :: 0 <= r < |ranking| && ranking[r] == pick ==>
          SamplingFilter(Ranked(probs, ranking), topK, topP, minP)[r] == probs[pick] > 0.0)
  }

  lemma LargestIsTopPick(probs: seq<real>, filtered: seq<real>, ranking: seq<Token>, topK: int, topP: real, minP: real,
                         pick: Token)
    requires |probs| == |filtered| && IsRanking(ranking, |probs|) && pick < |probs| && 0.0 < topP < 1.0
    requires 0.0 < minP < 1.0
    ensures IsDistribution(Ranked(probs, ranking)) &&
            Ranked(filtered, ranking) == SpeculativeFilter(Ranked(probs, ranking), topK, topP, minP) &&
            (forall t :: 0 <= t < |probs| ==> filtered[pick] >= filtered[t]) ==>
              IsTopPick(probs, ranking, topK, topP, minP, pick)
  {
    hide SamplingFilter, SpeculativeFilter, IsDistribution;
    var w, q := Ranked(probs, ranking), Ranked(filtered, ranking);
    assert pick in ranking;
    var rank :| 0 <= rank < |ranking| && ranking[rank] == pick;
    if IsDistribution(w) && q == SpeculativeFilter(w, topK, topP, minP) &&
       forall t :: 0 <= t < |probs| ==> filtered[pick] >= filtered[t] {
      assert forall r :: 0 <= r < |w| ==> q[rank] >= q[r];
      SpeculativePickIsTop(w, topK, topP, minP, rank);
      forall t: Token | t < |probs| ensures probs[pick] >= probs[t] {
        assert t in ranking;
        var r :| 0 <= r < |ranking| && ranking[r] == t;
        assert w[rank] >= w[r];
      }
    }
  }

  // ----- the loops over the array

  method ClampTopK(probs: array<real>, ranking: seq<Token>, topK: int)
    requires IsRanking(ranking, probs.Length)
    modifies probs
    ensures Ranked(probs[..], ranking) == TopK(old(Ranked(probs[..], ranking)), topK)
    ensures topK > 0 ==>
              forall r :: 0 <= r < |ranking| ==> probs[ranking[r]] == if r < topK then old(probs[ranking[r]]) else 0.0
    ensures topK <= 0 ==> probs[..] == old(probs[..])
  {
    ghost var w := Ranked(probs[..], ranking);
    if topK > 0 {
      for index := 0 to |ranking|
        invariant forall r :: 0 <= r < |ranking| ==>
                    probs[ranking[r]] == if r < index && r >= topK then 0.0 else w[r]
      {
        if index >= topK {
          probs[ranking[index]] := 0.0;
        }
      }
    }
  }

  method ClampTopP(probs: array<real>, ranking: seq<Token>, topP: real)
    requires IsRanking(ranking, probs.Length)
    modifies probs
    ensures Ranked(probs[..], ranking) == TopP(old(Ranked(probs[..], ranking)), topP)
    ensures forall r :: 0 <= r < |ranking| ==> probs[ranking[r]] == old(probs[ranking[r]]) || probs[ranking[r]] == 0.0
  {
    hide Sum, Nucleus, KeepFirst;
    ghost var w := Ranked(probs[..], ranking);
    ghost var n := Nucleus(w, topP);
    SumNothing(w);
    var cumsum := 0.0;
    for i := 0 to |ranking|
      invariant cumsum == Sum(w[..Min(i, n)])
      invariant forall r :: 0 <= r < |ranking| ==> probs[ranking[r]] == if r < i && r >= n then 0.0 else w[r]
    {
      if cumsum >= topP {
        probs[ranking[i]] := 0.0;
      } else {
        cumsum := cumsum + probs[ranking[i]];
        SumOneMore(w, i);
      }
    }
  }

  method ClampMinP(probs: array<real>, ranking: seq<Token>, minP: real)
    requires IsRanking(ranking, probs.Length) && ranking != []
    modifies probs
    ensures Ranked(probs[..], ranking) == MinP(old(Ranked(probs[..], ranking)), minP)
    ensures forall r :: 0 <= r < |ranking| ==>
              probs[ranking[r]] ==
                if old(probs[ranking[r]]) > old(probs[ranking[0]]) * minP then old(probs[ranking[r]]) else 0.0
  {
    ghost var w := Ranked(probs[..], ranking);
    var floor := Floor(probs[ranking[0]], minP);
    for i := 0 to |ranking|
      invariant forall r :: 0 <= r < |ranking| ==> probs[ranking[r]] == if r < i && floor >= w[r] then 0.0 else w[r]
    {
      if floor >= probs[ranking[i]] {
        probs[ranking[i]] := 0.0;
      }
    }
  }

  /** Turns probabilities into the weights that sampling draws from. */
  method SampleTopKpMinP(probs: array<real>, ranking: seq<Token>, topK: int, topP: real, minP: real)
    requires IsRanking(ranking, probs.Length) && ranking != []
    modifies probs
    ensures Ranked(probs[..], ranking) == SamplingFilter(old(Ranked(probs[..], ranking)), topK, topP, minP)
    ensures forall r :: 0 <= r < |ranking| ==> probs[ranking[r]] == old(probs[ranking[r]]) || probs[ranking[r]] == 0.0
    ensures topK > 0 ==> forall r :: topK <= r < |ranking| ==> probs[ranking[r]] == 0.0
    ensures topP <= 0.0 || topP >= 1.0 ==>
              forall r :: 0 <= r < |ranking| && (topK > 0 ==> r < topK) ==> probs[ranking[r]] == old(probs[ranking[r]])
  {
    ClampTopK(probs, ranking, topK);
    if topP <= 0.0 || topP >= 1.0 {
      return;
    }
    ClampTopP(probs, ranking, topP);
    if minP <= 0.0 || minP >= 1.0 {
      return;
    }
    ClampMinP(probs, ranking, minP);
  }

  /** Turns probabilities into filtered weights and takes a token of largest weight. */
  method SampleSpeculativeTopKpMinP(probs: array<real>, ranking: seq<Token>, topK: int, topP: real, minP: real)
    returns (nextToken: Token)
    requires IsRanking(ranking, probs.Length) && ranking != []
    modifies probs
    ensures Ranked(probs[..], ranking) == SpeculativeFilter(old(Ranked(probs[..], ranking)), topK, topP, minP)
    ensures forall r :: 0 <= r < |ranking| ==> probs[ranking[r]] == old(probs[ranking[r]]) || probs[ranking[r]] == 0.0
    ensures topK > 0 ==> forall r :: topK <= r < |ranking| ==> probs[ranking[r]] == 0.0
    ensures nextToken < probs.Length && forall t :: 0 <= t < probs.Length ==> probs[nextToken] >= probs[t]
    ensures old(IsDistribution(Ranked(probs[..], ranking))) && 0.0 < topP < 1.0 && 0.0 < minP < 1.0 ==>
              IsTopPick(old(probs[..]), ranking, topK, topP, minP, nextToken)
  {
    ghost var original := probs[..];
    ClampTopK(probs, ranking, topK);
    ClampTopP(probs, ranking, topP);
    ClampMinP(probs, ranking, minP);
    nextToken := 0;
    for t := 0 to probs.Length
      invariant nextToken < probs.Length && forall u :: 0 <= u < t ==> probs[nextToken] >= probs[u]
    {
      if probs[t] > probs[nextToken] {
        nextToken := t;
      }
    }
    if IsDistribution(Ranked(original, ranking)) && 0.0 < topP < 1.0 && 0.0 < minP < 1.0 {
      LargestIsTopPick(original, probs[..], ranking, topK, topP, minP, nextToken);
    }
  }
}
