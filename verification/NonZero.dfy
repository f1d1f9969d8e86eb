/** The indices of the non-zero elements of a contiguous tensor. */
module NonZero {
  import opened Common

  type Dims = seq<nat>

  type Index = seq<nat>

  function Product(dims: Dims): nat {
    if dims == [] then 1 else Product(dims[..|dims| - 1]) * dims[|dims| - 1]
  }

  predicate Positive(dims: Dims) { forall d :: 0 <= d < |dims| ==> dims[d] > 0 }

  ghost predicate InBounds(dims: Dims, index: Index) {
    |index| == |dims| && forall d :: 0 <= d < |dims| ==> index[d] < dims[d]
  }

  /** The flat position of a multi-index in row-major order. */
  function Ravel(dims: Dims, index: Index): nat
    requires |index| == |dims|
  {
    if dims == [] then 0
    else
      var n := |dims| - 1;
      Ravel(dims[..n], index[..n]) * dims[n] + index[n]
  }

  /** The multi-index of a flat position, last dimension first. */
  function Unravel(dims: Dims, i: nat): (index: Index)
    requires Positive(dims)
    ensures |index| == |dims|
  {
    if dims == [] then []
    else
      var n := |dims| - 1;
      Unravel(dims[..n], i / dims[n]) + [i % dims[n]]
  }

  lemma {:induction false} PositiveDims(dims: Dims)
    requires Product(dims) > 0
    ensures Positive(dims)
    decreases |dims|
  {
    if dims != [] {
      var n := |dims| - 1;
      PositiveFactors(Product(dims[..n]), dims[n]);
      PositiveDims(dims[..n]);
    }
  }

  /** Unravelled indices are within the bounds and ravel back. */
  lemma {:induction false} RavelUnravel(dims: Dims, i: nat)
    requires i < Product(dims) && Positive(dims)
    ensures InBounds(dims, Unravel(dims, i)) && Ravel(dims, Unravel(dims, i)) == i
    decreases |dims|
  {
    if dims != [] {
      var n := |dims| - 1;
      var front := Unravel(dims[..n], i / dims[n]);
      QuotientBelow(i, Product(dims[..n]), dims[n]);
      RavelUnravel(dims[..n], i / dims[n]);
      assert Unravel(dims, i)[..n] == front;
      assert i == i / dims[n] * dims[n] + i % dims[n];
    }
  }

  /** Indices within the bounds come from their flat position alone. */
  lemma {:induction false} UnravelRavel(dims: Dims, index: Index)
    requires InBounds(dims, index)
    ensures (Positive(dims)) && Ravel(dims, index) < Product(dims) && Unravel(dims, Ravel(dims, index)) == index
    decreases |dims|
  {
    if dims != [] {
      var n := |dims| - 1;
      UnravelRavel(dims[..n], index[..n]);
      var q, d := Ravel(dims[..n], index[..n]), dims[n];
      DivModUnique(Ravel(dims, index), d, q, index[n]);
      FlatBelow(q, index[n], Product(dims[..n]), d);
      assert index == index[..n] + [index[n]];
    }
  }

  /** Lexicographic order: at the first difference, the first index has the smaller entry. */
  ghost predicate Before(a: Index, b: Index) {
    |a| == |b| && exists d :: 0 <= d < |a| && a[..d] == b[..d] && a[d] < b[d]
  }

  /** Unravelling preserves the order of flat positions. */
  lemma {:induction false} UnravelMonotone(dims: Dims, i: nat, j: nat)
    requires i < j < Product(dims) && Positive(dims)
    ensures Before(Unravel(dims, i), Unravel(dims, j))
    decreases |dims|
  {
    if dims != [] {
      var n := |dims| - 1;
      var a, b := Unravel(dims[..n], i / dims[n]), Unravel(dims[..n], j / dims[n]);
      DivMonotone(i, j, dims[n]);
      if i / dims[n] < j / dims[n] {
        QuotientBelow(j, Product(dims[..n]), dims[n]);
        UnravelMonotone(dims[..n], i / dims[n], j / dims[n]);
        BeforeExtends(a, b, i % dims[n], j % dims[n]);
      } else {
        assert (a + [i % dims[n]])[..n] == (b + [j % dims[n]])[..n];
      }
    }
  }

  lemma BeforeExtends(a: Index, b: Index, x: nat, y: nat)
    requires Before(a, b)
    ensures Before(a + [x], b + [y])
  {
    var d :| 0 <= d < |a| && a[..d] == b[..d] && a[d] < b[d];
    assert (a + [x])[..d] == a[..d] && (b + [y])[..d] == b[..d];
  }

  // ----- the loops

  function Flatten(rows: seq<Index>): seq<nat> {
    if rows == [] then [] else Flatten(rows[..|rows| - 1]) + rows[|rows| - 1]
  }

  /** The rows are the multi-indices of the non-zero elements, each once, in order. */
  ghost predicate IsNonZeroIndices(vs: seq<int>, dims: Dims, rows: seq<Index>) {
    && (forall r :: 0 <= r < |rows| ==>
        InBounds(dims, rows[r]) && Ravel(dims, rows[r]) < |vs| && vs[Ravel(dims, rows[r])] != 0)
    && (forall i :: 0 <= i < |vs| && vs[i] != 0 ==>
        exists r :: 0 <= r < |rows| && InBounds(dims, rows[r]) && Ravel(dims, rows[r]) == i)
    && (forall r, s :: 0 <= r < s < |rows| ==> Before(rows[r], rows[s]))
  }

  /** Fills in the multi-index of a flat position from the last dimension to the first. */
  method UnravelInto(indices: array<nat>, dims: Dims, i: nat)
    requires indices.Length == |dims| && Positive(dims)
    modifies indices
    ensures indices[..] == Unravel(dims, i)
  {
    var idx := i;
    var n := |dims|;
    assert dims[..n] == dims;
    while n > 0
      invariant n <= |dims|
      invariant Unravel(dims[..n], idx) + indices[n..] == Unravel(dims, i)
    {
      n := n - 1;
      var dim := dims[n];
      assert dims[..n + 1][..n] == dims[..n];
      ghost var done := indices[n + 1..];
      var d := idx % dim;
      indices[n] := d;
      assert indices[n..] == [d] + done;
      assert Unravel(dims[..n + 1], idx) == Unravel(dims[..n], idx / dim) + [d];
      idx := idx / dim;
    }
    assert indices[0..] == indices[..];
  }

  /** The flat list of the indices of the non-zero elements. */
  method NonZeroIndices(vs: seq<int>, dims: Dims) returns (result: seq<nat>)
    requires |vs| == Product(dims)
    ensures exists rows: seq<Index> :: IsNonZeroIndices(vs, dims, rows) && result == Flatten(rows) &&
              |result| == |rows| * |dims|
  {
    hide PositionsUpTo, Unravel, Flatten, Product, IsNonZeroIndices;
    result := [];
    ghost var rows: seq<Index> := [];
    NoRows(vs);
    ghost var positions: seq<nat> := [];
    var indices := new nat[|dims|](_ => 0);
    for i := 0 to |vs|
      invariant result == Flatten(rows) && |result| == |rows| * |dims|
      invariant PositionsUpTo(vs, i, positions) && |rows| == |positions|
      invariant positions != [] ==> Positive(dims)
      invariant forall r :: 0 <= r < |rows| ==> rows[r] == Unravel(dims, positions[r])
    {
      PositiveDims(dims);
      PositionsOneMore(vs, i, positions);
      if vs[i] != 0 {
        UnravelInto(indices, dims, i);
        ghost var row := indices[..];
        OneMoreRow(rows, row);
        result := result + indices[..];
        rows := rows + [row];
        positions := positions + [i];
      }
    }
    PositionsGiveIndices(vs, dims, positions, rows);
  }

  /** In the flat list every row stands in its place. */
  lemma {:induction false} FlattenAt(rows: seq<Index>, n: nat, r: nat)
    requires r < |rows| && forall i :: 0 <= i < |rows| ==> |rows[i]| == n
    ensures |Flatten(rows)| == Mul(|rows|, n) && Mul(r, n) + n <= Mul(|rows|, n)
    ensures Flatten(rows)[Mul(r, n)..Mul(r, n) + n] == rows[r]
    decreases |rows|
  {
    var last := |rows| - 1;
    var front := rows[..last];
    MulSucc(last, n);
    MulFits(r, |rows|, n);
    if r < last {
      FlattenAt(front, n, r);
      assert Flatten(rows)[Mul(r, n)..Mul(r, n) + n] == Flatten(front)[Mul(r, n)..Mul(r, n) + n];
    } else if last > 0 {
      FlattenAt(front, n, 0);
    } else {
      MulZero(n);
      assert Flatten(front) == [];
    }
  }

  lemma OneMoreRow(rows: seq<Index>, row: Index)
    ensures Flatten(rows + [row]) == Flatten(rows) + row
    ensures (|rows| + 1) * |row| == |rows| * |row| + |row|
  {
    assert (rows + [row])[..|rows|] == rows;
  }

  lemma NoRows(vs: seq<int>)
    ensures Flatten([]) == [] && PositionsUpTo(vs, 0, [])
  {
  }

  /** The positions of the non-zero elements among the first n, in order. */
  ghost predicate PositionsUpTo(vs: seq<int>, n: nat, positions: seq<nat>)
    requires n <= |vs|
  {
    && (forall r :: 0 <= r < |positions| ==> positions[r] < n && vs[positions[r]] != 0)
    && (forall i :: 0 <= i < n && vs[i] != 0 ==> exists r :: 0 <= r < |positions| && positions[r] == i)
    && (forall r, s :: 0 <= r < s < |positions| ==> positions[r] < positions[s])
  }

  lemma PositionsOneMore(vs: seq<int>, n: nat, positions: seq<nat>)
    requires n < |vs| && PositionsUpTo(vs, n, positions)
    ensures PositionsUpTo(vs, n + 1, if vs[n] != 0 then positions + [n] else positions)
  {
    var more := if vs[n] != 0 then positions + [n] else positions;
    forall i | 0 <= i < n + 1 && vs[i] != 0 ensures exists r :: 0 <= r < |more| && more[r] == i {
      if i < n {
        var r :| 0 <= r < |positions| && positions[r] == i;
        assert more[r] == i;
      } else {
        assert more[|positions|] == i;
      }
    }
  }

  lemma PositionsGiveIndices(vs: seq<int>, dims: Dims, positions: seq<nat>, rows: seq<Index>)
    requires |vs| == Product(dims) && PositionsUpTo(vs, |vs|, positions) && |rows| == |positions|
    requires positions != [] ==> Positive(dims)
    requires forall r :: 0 <= r < |rows| ==> rows[r] == Unravel(dims, positions[r])
    ensures IsNonZeroIndices(vs, dims, rows)
  {
    forall r | 0 <= r < |rows| ensures InBounds(dims, rows[r]) && Ravel(dims, rows[r]) == positions[r] {
      RavelUnravel(dims, positions[r]);
    }
    forall i | 0 <= i < |vs| && vs[i] != 0
      ensures exists r :: 0 <= r < |rows| && InBounds(dims, rows[r]) && Ravel(dims, rows[r]) == i
    {
      var r :| 0 <= r < |positions| && positions[r] == i;
      assert Ravel(dims, rows[r]) == i;
    }
    forall r, s | 0 <= r < s < |rows| ensures Before(rows[r], rows[s]) {
      UnravelMonotone(dims, positions[r], positions[s]);
    }
  }
}
