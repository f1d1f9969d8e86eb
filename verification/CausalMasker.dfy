/** The causal attention mask: which cached positions each new position may attend to. */
module CausalMasker {
  import opened Common

  /** A two dimensional tensor in row-major order. */
  datatype Matrix<T> = Matrix(rows: nat, cols: nat, data: seq<T>) {
    ghost predicate Valid() { |data| == rows * cols }

    function At(i: nat, j: nat): T
      requires Valid() && i < rows && j < cols
    {
      FlatIndexInBounds(i, j, rows, cols);
      data[i * cols + j]
    }
  }

  /** What `masked_fill` leaves in the attention bias: 0.0, or minus infinity, which hides the position. */
  datatype Bias = Zero | NegInf

  lemma FlatIndexInBounds(i: nat, j: nat, rows: nat, cols: nat)
    requires i < rows && j < cols
    ensures 0 <= i * cols + j < rows * cols
  {
    assert (i + 1) * cols <= rows * cols;
  }

  function MaskRow(i: nat, tgtLen: nat, offset: nat): seq<nat> {
    seq(offset, j => if j + tgtLen > i + offset then 1 else 0)
  }

  function MaskRows(i: nat, tgtLen: nat, offset: nat): seq<nat>
    requires i <= tgtLen
    decreases tgtLen - i
  {
    if i == tgtLen then [] else MaskRow(i, tgtLen, offset) + MaskRows(i + 1, tgtLen, offset)
  }

  lemma {:induction false} MaskRowsLength(i: nat, tgtLen: nat, offset: nat)
    requires i <= tgtLen
    ensures |MaskRows(i, tgtLen, offset)| == (tgtLen - i) * offset
    decreases tgtLen - i
  {
    if i < tgtLen {
      MaskRowsLength(i + 1, tgtLen, offset);
      assert (tgtLen - i) * offset == offset + (tgtLen - (i + 1)) * offset;
    }
  }

  lemma {:induction false} MaskRowsAt(i: nat, tgtLen: nat, offset: nat, r: nat, j: nat)
    requires i + r < tgtLen && j < offset
    ensures 0 <= r * offset + j < |MaskRows(i, tgtLen, offset)|
    ensures MaskRows(i, tgtLen, offset)[r * offset + j] == MaskRow(i + r, tgtLen, offset)[j]
    decreases r
  {
    MaskRowsLength(i, tgtLen, offset);
    FlatIndexInBounds(r, j, tgtLen - i, offset);
    if r > 0 {
      MaskRowsAt(i + 1, tgtLen, offset, r - 1, j);
      assert r * offset + j == offset + ((r - 1) * offset + j);
    }
  }

  function MakeMask(tgtLen: nat, pastKvLen: nat): (mask: Matrix<nat>)
    ensures mask.Valid() && mask.rows == tgtLen && mask.cols == tgtLen + pastKvLen
  {
    var offset := tgtLen + pastKvLen;
    MaskRowsLength(0, tgtLen, offset);
    Matrix(tgtLen, offset, MaskRows(0, tgtLen, offset))
  }

  /** `make_causal_mask_matrix`: no mask at all for a single new position. */
  function MakeCausalMaskMatrix(tgtLen: nat, pastKvLen: nat): (bias: Option<Matrix<Bias>>)
    ensures bias.Some? ==> bias.value.Valid() && bias.value.rows == tgtLen && bias.value.cols == tgtLen + pastKvLen
  {
    if tgtLen == 1 then None
    else
      var mask := MakeMask(tgtLen, pastKvLen);
      Some(Matrix(mask.rows, mask.cols,
                  seq(|mask.data|, n requires 0 <= n < |mask.data| => if mask.data[n] != 0 then NegInf else Zero)))
  }

  /** Whether new position i may attend to position j of the cache extended by the new positions. */
  predicate Visible(bias: Option<Matrix<Bias>>, i: nat, j: nat)
    requires bias.Some? ==> bias.value.Valid() && i < bias.value.rows && j < bias.value.cols
  {
    bias.None? || bias.value.At(i, j) == Zero
  }

  /** New position i, which stands at pastKvLen + i, sees itself and everything before it, and nothing after it. */
  lemma VisibleIsCausal(tgtLen: nat, pastKvLen: nat, i: nat, j: nat)
    requires i < tgtLen && j < tgtLen + pastKvLen
    ensures Visible(MakeCausalMaskMatrix(tgtLen, pastKvLen), i, j) <==> j <= pastKvLen + i
  {
    var offset := tgtLen + pastKvLen;
    FlatIndexInBounds(i, j, tgtLen, offset);
    MaskRowsAt(0, tgtLen, offset, i, j);
  }

  /** Row i of the mask for tgtLen new positions after pastKvLen old ones is row pastKvLen + i of the mask
      for all positions at once; also when either mask is left out. */
  lemma MaskRowOfFullMask(tgtLen: nat, pastKvLen: nat, i: nat, j: nat)
    requires i < tgtLen && j < tgtLen + pastKvLen
    ensures Visible(MakeCausalMaskMatrix(tgtLen, pastKvLen), i, j)
       <==> Visible(MakeCausalMaskMatrix(tgtLen + pastKvLen, 0), pastKvLen + i, j)
  {
    VisibleIsCausal(tgtLen, pastKvLen, i, j);
    VisibleIsCausal(tgtLen + pastKvLen, 0, pastKvLen + i, j);
  }
}
