/** The speculative pick without a temperature, which gets logits of any sign in place of probabilities. */
module GreedyPick {
  import opened Common
  import opened Sampler

  /** A token of largest weight. */
  ghost predicate IsPick(q: seq<real>, pick: nat) {
    pick < |q| && forall r :: 0 <= r < |q| ==> q[pick] >= q[r]
  }

  /** Whichever token of largest filtered weight is picked, its logit is maximal. */
  ghost predicate PicksMaximum(w: seq<real>, topK: int, topP: real, minP: real)
    requires w != []
  {
    forall pick: nat :: IsPick(SpeculativeFilter(w, topK, topP, minP), pick) ==> IsPick(w, pick)
  }

  /** When it is, for logits in ranked order: all are equal, or the head is positive and survives, or the head is
      negative and nothing at all is zeroed. */
  predicate MaximumSurvives(w: seq<real>, topK: int, topP: real, minP: real)
    requires w != []
  {
    w[|w| - 1] == w[0]
    || (topP > 0.0 && w[0] > 0.0 && minP < 1.0)
    || (topP > 0.0 && w[0] < 0.0 && minP > 1.0 && TopKCount(topK, |w|) == |w| && w[|w| - 1] > Floor(w[0], minP))
  }

  function Kept(w: seq<real>, topK: int, topP: real): nat { Nucleus(w[..TopKCount(topK, |w|)], topP) }

  lemma FilterAt(w: seq<real>, topK: int, topP: real, minP: real)
    requires w != []
    ensures var n := Kept(w, topK, topP);
            var floor := Floor(if n > 0 then w[0] else 0.0, minP);
            n <= TopKCount(topK, |w|) && |SpeculativeFilter(w, topK, topP, minP)| == |w| &&
            forall r :: 0 <= r < |w| ==>
              SpeculativeFilter(w, topK, topP, minP)[r] ==
                (var x := if r < n then w[r] else 0.0; if floor >= x then 0.0 else x)
  {
    NucleusWithinTopK(w, topK, topP);
    hide Nucleus, Floor;
  }

  lemma KeptCount(w: seq<real>, topK: int, topP: real)
    requires w != []
    ensures Kept(w, topK, topP) > 0 <==> topP > 0.0
  {
    assert w[..TopKCount(topK, |w|)][..0] == [];
  }

  lemma {:induction false} NegativeSum(w: seq<real>)
    requires forall r :: 0 <= r < |w| ==> w[r] < 0.0
    ensures Sum(w) <= 0.0
    decreases |w|
  {
    if w != [] {
      NegativeSum(w[..|w| - 1]);
    }
  }

  /** Negative logits never add up to anything, so top-p keeps all of them. */
  lemma NegativeKept(w: seq<real>, topK: int, topP: real)
    requires w != [] && (forall r :: 0 <= r < |w| ==> w[r] < 0.0) && topP > 0.0
    ensures Kept(w, topK, topP) == TopKCount(topK, |w|)
  {
    var v := w[..TopKCount(topK, |w|)];
    NegativeSum(v[..Nucleus(v, topP)]);
  }

  lemma FloorSigns(head: real, minP: real)
    ensures head > 0.0 ==> (minP < 1.0 <==> Floor(head, minP) < head)
    ensures head < 0.0 ==> (minP > 1.0 <==> Floor(head, minP) < head)
    ensures head == 0.0 ==> Floor(head, minP) == 0.0
  {
    if head > 0.0 {
      FloorBelowHead(head, minP);
    } else if head < 0.0 {
      FloorBelowHead(-head, minP);
      assert Floor(-head, minP) == -Floor(head, minP);
      FloorAboveHead(-head, minP);
    }
  }

  lemma FloorAboveHead(head: real, minP: real)
    requires head > 0.0
    ensures minP > 1.0 <==> Floor(head, minP) > head
  {
    SignOfProduct(head, minP - 1.0);
    assert Floor(head, minP) - head == head * (minP - 1.0);
  }

  lemma EqualPicks(w: seq<real>)
    requires w != [] && Sorted(w)
    ensures (forall pick: nat :: pick < |w| ==> IsPick(w, pick)) <==> w[|w| - 1] == w[0]
    ensures forall pick: nat :: pick < |w| ==> (IsPick(w, pick) <==> w[pick] == w[0])
  {
    if forall pick: nat :: pick < |w| ==> IsPick(w, pick) {
      assert IsPick(w, |w| - 1);
    }
  }

  ghost predicate AllZero(q: seq<real>) { forall r :: 0 <= r < |q| ==> q[r] == 0.0 }

  lemma ZerosPickAny(w: seq<real>, topK: int, topP: real, minP: real)
    requires w != [] && Sorted(w) && AllZero(SpeculativeFilter(w, topK, topP, minP))
    requires |SpeculativeFilter(w, topK, topP, minP)| == |w|
    ensures PicksMaximum(w, topK, topP, minP) <==> w[|w| - 1] == w[0]
  {
    hide SpeculativeFilter;
    EqualPicks(w);
    var q := SpeculativeFilter(w, topK, topP, minP);
    assert forall pick: nat :: pick < |w| ==> IsPick(q, pick);
  }

  lemma PositiveHeadPicked(w: seq<real>, topK: int, topP: real, minP: real)
    requires w != [] && Sorted(w) && topP > 0.0 && w[0] > 0.0 && minP < 1.0
    ensures PicksMaximum(w, topK, topP, minP)
  {
    FilterAt(w, topK, topP, minP);
    KeptCount(w, topK, topP);
    FloorSigns(w[0], minP);
    hide SpeculativeFilter, Floor, Kept;
    var q := SpeculativeFilter(w, topK, topP, minP);
    assert q[0] == w[0];
  }

  lemma NegativeHeadPicked(w: seq<real>, topK: int, topP: real, minP: real)
    requires w != [] && Sorted(w) && topP > 0.0 && w[0] < 0.0 && minP > 1.0
    ensures PicksMaximum(w, topK, topP, minP) <==> MaximumSurvives(w, topK, topP, minP)
  {
    hide SpeculativeFilter, Floor, Kept, IsPick;
    FilterAt(w, topK, topP, minP);
    KeptCount(w, topK, topP);
    assert forall r :: 0 <= r < |w| ==> w[r] < 0.0;
    NegativeKept(w, topK, topP);
    FloorSigns(w[0], minP);
    NegativePick(w, SpeculativeFilter(w, topK, topP, minP), TopKCount(topK, |w|), Floor(w[0], minP));
  }

  /** What a filter with the given floor makes of the first k of negative values. */
  ghost predicate Filtered(w: seq<real>, q: seq<real>, k: nat, floor: real) {
    |q| == |w| && forall r :: 0 <= r < |w| ==>
      q[r] == var x := if r < k then w[r] else 0.0; if floor >= x then 0.0 else x
  }

  lemma NegativePick(w: seq<real>, q: seq<real>, k: nat, floor: real)
    requires w != [] && Sorted(w) && 0 < k <= |w| && floor < w[0] < 0.0 && Filtered(w, q, k, floor)
    ensures (forall pick: nat :: IsPick(q, pick) ==> IsPick(w, pick)) <==>
              w[|w| - 1] == w[0] || (k == |w| && w[|w| - 1] > floor)
  {
    var n := |w| - 1;
    EqualPicks(w);
    PicksAreIndices(q);
    if k == |w| && w[n] > floor {
      NothingFiltered(w, q, k, floor);
    } else {
      LastFiltered(w, q, k, floor);
      hide IsPick, Sorted, Filtered;
      if w[n] != w[0] {
        assert !IsPick(w, n);
      }
    }
  }

  lemma NothingFiltered(w: seq<real>, q: seq<real>, k: nat, floor: real)
    requires w != [] && Sorted(w) && k == |w| && floor < w[|w| - 1] && Filtered(w, q, k, floor)
    ensures q == w
  {
  }

  lemma LastFiltered(w: seq<real>, q: seq<real>, k: nat, floor: real)
    requires w != [] && Sorted(w) && k <= |w| && w[0] < 0.0 && Filtered(w, q, k, floor)
    requires k < |w| || w[|w| - 1] <= floor
    ensures IsPick(q, |w| - 1)
  {
  }

  lemma PicksAreIndices(q: seq<real>)
    ensures forall pick: nat :: IsPick(q, pick) ==> pick < |q|
  {
  }

  /** The greedy speculative pick is a token of maximal logit exactly then. */
  lemma GreedyPickExactly(w: seq<real>, topK: int, topP: real, minP: real)
    requires w != [] && Sorted(w)
    ensures PicksMaximum(w, topK, topP, minP) <==> MaximumSurvives(w, topK, topP, minP)
  {
    hide SpeculativeFilter, Floor, Kept, IsPick, PicksMaximum;
    if topP > 0.0 && w[0] > 0.0 && minP < 1.0 {
      PositiveHeadPicked(w, topK, topP, minP);
    } else if topP > 0.0 && w[0] < 0.0 && minP > 1.0 {
      NegativeHeadPicked(w, topK, topP, minP);
    } else {
      FilterAt(w, topK, topP, minP);
      KeptCount(w, topK, topP);
      FloorSigns(w[0], minP);
      FloorSigns(0.0, minP);
      assert AllZero(SpeculativeFilter(w, topK, topP, minP));
      ZerosPickAny(w, topK, topP, minP);
    }
  }

  /** So for the array of logits that the pick is made from. */
  lemma GreedyTokenIsMaximal(logits: seq<real>, filtered: seq<real>, ranking: seq<Token>, topK: int, topP: real,
                             minP: real, pick: Token)
    requires |logits| == |filtered| && IsRanking(ranking, |logits|) && ranking != [] && Sorted(Ranked(logits, ranking))
    requires Ranked(filtered, ranking) == SpeculativeFilter(Ranked(logits, ranking), topK, topP, minP)
    requires MaximumSurvives(Ranked(logits, ranking), topK, topP, minP) && IsPick(filtered, pick)
    ensures IsPick(logits, pick)
  {
    var w, q := Ranked(logits, ranking), Ranked(filtered, ranking);
    GreedyPickExactly(w, topK, topP, minP);
    hide SpeculativeFilter, MaximumSurvives;
    assert pick in ranking;
    var rank :| 0 <= rank < |ranking| && ranking[rank] == pick;
    assert forall r :: 0 <= r < |q| ==> q[rank] >= q[r];
    assert IsPick(q, rank) && IsPick(w, rank);
    forall t: Token | t < |logits| ensures logits[pick] >= logits[t] {
      assert t in ranking;
      var r :| 0 <= r < |ranking| && ranking[r] == t;
      assert w[rank] >= w[r];
    }
  }

  /** Two negative logits: everything is zeroed, and the lesser one may be picked. */
  lemma NegativeLogitsAreZeroed()
    ensures forall topK: int, topP: real, minP: real :: topP > 0.0 && 0.0 <= minP < 1.0 ==>
              !PicksMaximum([-1.0, -2.0], topK, topP, minP)
  {
    forall topK: int, topP: real, minP: real | topP > 0.0 && 0.0 <= minP < 1.0
      ensures !PicksMaximum([-1.0, -2.0], topK, topP, minP)
    {
      GreedyPickExactly([-1.0, -2.0], topK, topP, minP);
    }
  }
}
