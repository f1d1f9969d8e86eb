/** The parallel histogram: local histograms of chunks, merged in whatever tree the scheduler makes. */
module Bincount {
  import opened Common

  /** Values have 32 bits. The largest of these has no place: the length of its histogram would not fit. */
  const LARGEST: nat := 0xFFFF_FFFF

  /** How the values are split and the local histograms merged; merging may start from a fresh histogram of zeros. */
  datatype Plan = Chunk(values: seq<nat>) | Merge(left: Plan, right: Plan) | Fresh

  function Values(plan: Plan): seq<nat> {
    match plan
    case Chunk(values) => values
    case Merge(left, right) => Values(left) + Values(right)
    case Fresh => []
  }

  function Count(values: seq<int>, v: int): nat { multiset(values)[v] }

  /** Each entry counts its own index. */
  ghost predicate IsHistogram(hist: seq<nat>, values: seq<nat>) {
    forall i :: 0 <= i < |hist| ==> hist[i] == Count(values, i)
  }

  function Sum(s: seq<nat>): nat {
    if s == [] then 0 else Sum(s[..|s| - 1]) + s[|s| - 1]
  }

  lemma {:induction false} SumOfIncremented(s: seq<nat>, i: nat)
    requires i < |s|
    ensures Sum(s[i := s[i] + 1]) == Sum(s) + 1
    decreases |s|
  {
    var n, t := |s| - 1, s[i := s[i] + 1];
    if i < n {
      SumOfIncremented(s[..n], i);
      assert t[..n] == s[..n][i := s[i] + 1];
    } else {
      assert t[..n] == s[..n];
    }
  }

  lemma {:induction false} SumOfZeros(s: seq<nat>)
    requires forall i :: 0 <= i < |s| ==> s[i] == 0
    ensures Sum(s) == 0
    decreases |s|
  {
    if s != [] {
      SumOfZeros(s[..|s| - 1]);
    }
  }

  /** The entries of a histogram that covers all values add up to the number of values. */
  lemma {:induction false} HistogramTotal(hist: seq<nat>, values: seq<nat>)
    requires IsHistogram(hist, values) && forall v <- values :: v < |hist|
    ensures Sum(hist) == |values|
    decreases |values|
  {
    if values == [] {
      SumOfZeros(hist);
    } else {
      var n := |values| - 1;
      var v, rest := values[n], values[..n];
      assert values == rest + [v];
      assert v in values;
      var less := hist[v := hist[v] - 1];
      forall i | 0 <= i < |less| ensures less[i] == Count(rest, i) {
        assert Count(values, i) == Count(rest, i) + if i == v then 1 else 0;
      }
      assert forall u <- rest :: u in values;
      HistogramTotal(less, rest);
      SumOfIncremented(less, v);
      assert less[v := less[v] + 1] == hist;
    }
  }

  /** The sequential histogram that the parallel one stands in for. */
  function Fold(values: seq<nat>, len: nat): (hist: seq<nat>)
    requires forall v <- values :: v < len
    ensures |hist| == len
  {
    if values == [] then seq(len, _ => 0)
    else
      var n := |values| - 1;
      assert forall v <- values[..n] :: v in values;
      assert values[n] in values;
      var hist := Fold(values[..n], len);
      hist[values[n] := hist[values[n]] + 1]
  }

  function LargestOr0(values: seq<nat>): (max: nat)
    ensures forall v <- values :: v <= max
    ensures values != [] ==> max in values
  {
    if values == [] then 0
    else
      var n := |values| - 1;
      assert values == values[..n] + [values[n]];
      Max(values[n], LargestOr0(values[..n]))
  }

  function SequentialBincount(values: seq<nat>, minlength: nat): seq<nat> {
    Fold(values, Max(LargestOr0(values) + 1, minlength))
  }

  lemma {:induction false} FoldIsHistogram(values: seq<nat>, len: nat)
    requires forall v <- values :: v < len
    ensures IsHistogram(Fold(values, len), values)
    decreases |values|
  {
    if values != [] {
      var n := |values| - 1;
      assert values == values[..n] + [values[n]];
      assert forall v <- values[..n] :: v in values;
      FoldIsHistogram(values[..n], len);
      assert forall i :: 0 <= i < len ==> Count(values, i) == Count(values[..n], i) + if i == values[n] then 1 else 0;
    }
  }

  method LocalHistogram(values: seq<nat>, len: nat) returns (hist: seq<nat>)
    requires forall v <- values :: v < len
    ensures |hist| == len && IsHistogram(hist, values)
  {
    hist := seq(len, _ => 0);
    for n := 0 to |values|
      invariant |hist| == len && IsHistogram(hist, values[..n])
    {
      var v := values[n];
      assert v in values && values[..n + 1] == values[..n] + [v];
      hist := hist[v := hist[v] + 1];
    }
    assert values[..|values|] == values;
  }

  method MergeHistograms(global: seq<nat>, local: seq<nat>) returns (merged: seq<nat>)
    requires |global| == |local|
    ensures |merged| == |global| && forall i :: 0 <= i < |merged| ==> merged[i] == global[i] + local[i]
  {
    merged := global;
    for i := 0 to |global|
      invariant |merged| == |global|
      invariant forall j :: 0 <= j < |global| ==> merged[j] == if j < i then global[j] + local[j] else global[j]
    {
      merged := merged[i := merged[i] + local[i]];
    }
  }

  method FoldAndReduce(plan: Plan, len: nat) returns (hist: seq<nat>)
    requires forall v <- Values(plan) :: v < len
    ensures |hist| == len && IsHistogram(hist, Values(plan))
    decreases plan
  {
    match plan {
      case Chunk(values) =>
        hist := LocalHistogram(values, len);
      case Fresh =>
        hist := seq(len, _ => 0);
      case Merge(left, right) =>
        assert forall v <- Values(left) :: v in Values(plan);
        assert forall v <- Values(right) :: v in Values(plan);
        var global := FoldAndReduce(left, len);
        var local := FoldAndReduce(right, len);
        hist := MergeHistograms(global, local);
    }
  }

  method MaxValue(values: seq<nat>) returns (max: nat)
    requires values != []
    ensures max in values && forall v <- values :: v <= max
  {
    max := values[0];
    for i := 0 to |values|
      invariant max in values && forall v <- values[..i] :: v <= max
    {
      assert values[..i + 1] == values[..i] + [values[i]];
      if values[i] > max {
        max := values[i];
      }
    }
    assert values[..|values|] == values;
  }

  /** For every plan over the values: the entries add up to the number of values, and the result is the sequential
      histogram, except that nothing counted with no minimal length gives no entries at all. */
  method BinCount(values: seq<nat>, minlength: nat, plan: Plan) returns (hist: seq<nat>)
    requires Values(plan) == values
    requires forall v <- values :: v < LARGEST
    ensures hist == if values == [] && minlength == 0 then [] else SequentialBincount(values, minlength)
    ensures IsHistogram(hist, values) && Sum(hist) == |values|
    ensures forall v <- values :: v < |hist|
    ensures |hist| >= minlength && (|hist| > minlength ==> |hist| - 1 in values)
  {
    if values == [] {
      hist := seq(minlength, _ => 0);
      SumOfZeros(hist);
      return;
    }
    var maxVal := MaxValue(values);
    var resultLen := Max(maxVal + 1, minlength);
    hist := FoldAndReduce(plan, resultLen);
    HistogramTotal(hist, values);
    FoldIsHistogram(values, resultLen);
    assert maxVal == LargestOr0(values);
    assert hist == Fold(values, resultLen);
  }
}
