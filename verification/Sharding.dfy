/** Tensor-parallel shards: the part of a stored tensor that one rank loads. */
module Sharding {
  import opened Common

  /** A tensor in row-major order. */
  datatype View<E> = View(shape: seq<nat>, data: seq<E>)

  datatype Shard =
    | Simple(dim: nat, rank: nat, worldSize: nat)
    | Offset(dim: nat, offset: nat, len: nat)

  datatype ShardError = UnexpectedShape | ShapeMismatchSplit | CannotSlice | DimNotSupported

  function Product(shape: seq<nat>): nat {
    if shape == [] then 1 else shape[0] * Product(shape[1..])
  }

  /** From each of `outer` stretches of the given width, the len elements from lo on. */
  function Slice<E>(data: seq<E>, outer: nat, width: nat, lo: nat, len: nat): seq<E>
    decreases outer
  {
    if outer == 0 || |data| < width || lo + len > width then []
    else data[lo..lo + len] + Slice(data[width..], outer - 1, width, lo, len)
  }

  ghost predicate Valid<E>(view: View<E>) { |view.data| == Product(view.shape) }

  /** A valid tensor splits, before and behind dimension 0 or 1, into stretches of shape[dim] parts. */
  function Outer(shape: seq<nat>, dim: nat): nat
    requires dim < |shape| && dim < 2
  {
    if dim == 0 then 1 else shape[0]
  }

  function Inner(shape: seq<nat>, dim: nat): nat
    requires dim < |shape|
  {
    Product(shape[dim + 1..])
  }

  lemma ShapeSplits(shape: seq<nat>, dim: nat)
    requires dim < |shape| && dim < 2
    ensures Product(shape) == Outer(shape, dim) * (shape[dim] * Inner(shape, dim))
  {
    if dim == 1 {
      assert shape[1..][0] == shape[1] && shape[1..][1..] == shape[2..];
    }
  }

  /** The part from start to stop of one dimension. */
  function Narrow<E>(view: View<E>, dim: nat, start: nat, stop: nat): Result<View<E>, ShardError>
    requires dim < |view.shape| && start <= stop
  {
    if dim > 1 then Err(DimNotSupported)
    else if start >= view.shape[dim] || stop > view.shape[dim] then Err(CannotSlice)
    else
      var inner := Inner(view.shape, dim);
      Ok(View(view.shape[dim := stop - start],
              Slice(view.data, Outer(view.shape, dim), view.shape[dim] * inner, start * inner, (stop - start) * inner)))
  }

  function Get<E>(view: View<E>, targetShape: seq<nat>, shard: Shard): Result<View<E>, ShardError>
    requires shard.dim < |view.shape| && (shard.Simple? ==> shard.worldSize > 0)
  {
    match shard
    case Simple(dim, rank, worldSize) =>
      if worldSize == 1 then
        if view.shape != targetShape then Err(UnexpectedShape) else Ok(view)
      else
        var size := view.shape[dim];
        if size % worldSize != 0 then Err(ShapeMismatchSplit)
        else
          var blockSize := size / worldSize;
          MulMonotone(rank, rank + 1, blockSize);
          assert (rank + 1) * blockSize - rank * blockSize == blockSize;
          Narrow(view, dim, rank * blockSize, (rank + 1) * blockSize)
    case Offset(dim, offset, len) => Narrow(view, dim, offset, offset + len)
  }

  // ----- what a shard holds

  /** From each stretch, the elements in their places. */
  lemma {:induction false} SliceAt<E>(data: seq<E>, outer: nat, width: nat, lo: nat, len: nat, o: nat, x: nat)
    requires lo + len <= width && |data| == Mul(outer, width) && o < outer && x < len
    ensures Mul(o, len) + x < |Slice(data, outer, width, lo, len)| && Mul(o, width) + lo + x < |data|
    ensures Slice(data, outer, width, lo, len)[Mul(o, len) + x] == data[Mul(o, width) + lo + x]
    decreases outer
  {
    hide Mul;
    MulSucc(outer - 1, width);
    MulFits(o, outer, width);
    if o > 0 {
      MulSucc(o - 1, len);
      MulSucc(o - 1, width);
      SliceAt(data[width..], outer - 1, width, lo, len, o - 1, x);
    } else {
      MulZero(len);
      MulZero(width);
    }
  }

  /** Element x of stretch o of the part is the one start parts further in the tensor. */
  ghost predicate InPlace<E>(view: View<E>, dim: nat, start: nat, len: nat, part: seq<E>, o: nat, x: nat)
    requires dim < |view.shape|
  {
    var inner := Inner(view.shape, dim);
    var there, here := Mul(o, len * inner) + x, Mul(o, view.shape[dim] * inner) + start * inner + x;
    there < |part| && here < |view.data| && part[there] == view.data[here]
  }

  /** The part of a tensor from start on, of the given length in one dimension: its shape, and each element in its
      place. */
  ghost predicate IsPart<E>(view: View<E>, dim: nat, start: nat, len: nat, part: View<E>)
    requires dim < |view.shape| && dim < 2
  {
    && part.shape == view.shape[dim := len]
    && |part.data| == Mul(Outer(view.shape, dim), len * Inner(view.shape, dim))
    && forall o: nat, x: nat :: o < Outer(view.shape, dim) && x < len * Inner(view.shape, dim) ==>
         InPlace(view, dim, start, len, part.data, o, x)
  }

  lemma NarrowIsPart<E>(view: View<E>, dim: nat, start: nat, len: nat)
    requires Valid(view) && dim < |view.shape| && dim < 2 && start < view.shape[dim] && start + len <= view.shape[dim]
    ensures Narrow(view, dim, start, start + len).Ok?
    ensures IsPart(view, dim, start, len, Narrow(view, dim, start, start + len).value)
  {
    var outer, inner := Outer(view.shape, dim), Inner(view.shape, dim);
    var part := Narrow(view, dim, start, start + len).value;
    PartBounds(view, dim, start, len);
    SliceLength(view.data, outer, view.shape[dim] * inner, start * inner, len * inner);
    hide Inner, Outer, Product, Valid, Mul, Slice, InPlace;
    forall o: nat, x: nat {:trigger InPlace(view, dim, start, len, part.data, o, x)} | o < outer && x < len * inner
      ensures InPlace(view, dim, start, len, part.data, o, x)
    {
      SliceInPlace(view, dim, start, len, o, x);
    }
  }

  lemma PartBounds<E>(view: View<E>, dim: nat, start: nat, len: nat)
    requires Valid(view) && dim < |view.shape| && dim < 2 && start + len <= view.shape[dim]
    ensures var inner := Inner(view.shape, dim);
            start * inner + len * inner <= view.shape[dim] * inner &&
            |view.data| == Mul(Outer(view.shape, dim), view.shape[dim] * inner)
  {
    var inner := Inner(view.shape, dim);
    ShapeSplits(view.shape, dim);
    hide Inner;
    assert start * inner + len * inner == (start + len) * inner;
    MulMonotone(start + len, view.shape[dim], inner);
  }

  lemma SliceInPlace<E>(view: View<E>, dim: nat, start: nat, len: nat, o: nat, x: nat)
    requires Valid(view) && dim < |view.shape| && dim < 2 && start + len <= view.shape[dim]
    requires o < Outer(view.shape, dim) && x < len * Inner(view.shape, dim)
    ensures var inner := Inner(view.shape, dim);
            InPlace(view, dim, start, len,
                    Slice(view.data, Outer(view.shape, dim), view.shape[dim] * inner, start * inner, len * inner), o, x)
  {
    PartBounds(view, dim, start, len);
    hide Outer, Product, Valid, Mul, Slice, Inner;
    var inner := Inner(view.shape, dim);
    SliceAt(view.data, Outer(view.shape, dim), view.shape[dim] * inner, start * inner, len * inner, o, x);
  }

  /** A shard at an offset: outside of the dimension it fails, and otherwise it is that part of the tensor. */
  lemma OffsetShard<E>(view: View<E>, targetShape: seq<nat>, dim: nat, offset: nat, len: nat)
    requires Valid(view) && dim < |view.shape|
    ensures var r := Get(view, targetShape, Offset(dim, offset, len));
            if dim >= 2 then r == Err(DimNotSupported)
            else if offset < view.shape[dim] && offset + len <= view.shape[dim] then r.Ok? &&
              IsPart(view, dim, offset, len, r.value)
            else r == Err(CannotSlice)
  {
    hide IsPart;
    if dim < 2 && offset < view.shape[dim] && offset + len <= view.shape[dim] {
      NarrowIsPart(view, dim, offset, len);
    }
  }

  /** A single rank gets the tensor as it is, if that has the shape asked for, and an error otherwise. */
  lemma SingleRankShard<E>(view: View<E>, targetShape: seq<nat>, dim: nat, rank: nat)
    requires dim < |view.shape|
    ensures view.shape == targetShape ==> Get(view, targetShape, Simple(dim, rank, 1)) == Ok(view)
    ensures view.shape != targetShape ==> Get(view, targetShape, Simple(dim, rank, 1)) == Err(UnexpectedShape)
  {
  }

  // ----- joining

  function Concat<E>(parts: seq<seq<E>>): seq<E> {
    if parts == [] then [] else Concat(parts[..|parts| - 1]) + parts[|parts| - 1]
  }

  /** What each part contributes to the current stretch, and what is left of it. */
  function Heads<E>(parts: seq<seq<E>>, u: nat): seq<seq<E>> {
    seq(|parts|, r requires 0 <= r < |parts| => parts[r][..Min(u, |parts[r]|)])
  }

  function Tails<E>(parts: seq<seq<E>>, u: nat): seq<seq<E>> {
    seq(|parts|, r requires 0 <= r < |parts| => parts[r][Min(u, |parts[r]|)..])
  }

  /** Concatenation along a dimension: the stretches of width u of all parts one behind the other, `outer` times. */
  function Join<E>(parts: seq<seq<E>>, outer: nat, u: nat): seq<E>
    decreases outer
  {
    if outer == 0 then [] else Concat(Heads(parts, u)) + Join(Tails(parts, u), outer - 1, u)
  }

  /** The first n blocks of width u. */
  ghost function Blocks<E>(s: seq<E>, u: nat, n: nat): (blocks: seq<seq<E>>)
    ensures |blocks| == n
  {
    if n == 0 then []
    else
      var lo := Mul(n - 1, u);
      Blocks(s, u, n - 1) + [if lo + u <= |s| then s[lo..lo + u] else []]
  }

  lemma {:induction false} BlockAt<E>(s: seq<E>, u: nat, n: nat, r: nat)
    requires r < n && Mul(n, u) <= |s|
    ensures Mul(r, u) + u <= |s| && Blocks(s, u, n)[r] == s[Mul(r, u)..Mul(r, u) + u]
    decreases n
  {
    hide Mul;
    MulFits(r, n, u);
    if r < n - 1 {
      MulSucc(n - 1, u);
      BlockAt(s, u, n - 1, r);
    }
  }

  /** Cutting a stretch into equal blocks and concatenating them gives back the stretch. */
  lemma {:induction false} ConcatBlocks<E>(s: seq<E>, u: nat, n: nat)
    requires Mul(n, u) <= |s|
    ensures Concat(Blocks(s, u, n)) == s[..Mul(n, u)]
    decreases n
  {
    hide Mul;
    if n > 0 {
      MulSucc(n - 1, u);
      ConcatBlocks(s, u, n - 1);
      var blocks := Blocks(s, u, n);
      assert blocks[..n - 1] == Blocks(s, u, n - 1);
    } else {
      assert Mul(0, u) == 0 by { MulZero(u); }
    }
  }

  /** The slices of all ranks, in rank order. */
  ghost function Slices<E>(data: seq<E>, outer: nat, ranks: nat, u: nat): seq<seq<E>> {
    seq(ranks, r requires 0 <= r => Slice(data, outer, Mul(ranks, u), Mul(r, u), u))
  }

  lemma {:induction false} SliceLength<E>(data: seq<E>, outer: nat, width: nat, lo: nat, len: nat)
    requires lo + len <= width && |data| == Mul(outer, width)
    ensures |Slice(data, outer, width, lo, len)| == Mul(outer, len)
    decreases outer
  {
    hide Mul;
    if outer > 0 {
      MulSucc(outer - 1, width);
      MulSucc(outer - 1, len);
      SliceLength(data[width..], outer - 1, width, lo, len);
    } else {
      MulZero(len);
    }
  }

  lemma {:induction false} JoinOfSlices<E>(data: seq<E>, outer: nat, ranks: nat, u: nat)
    requires |data| == Mul(outer, Mul(ranks, u))
    ensures Join(Slices(data, outer, ranks, u), outer, u) == data
    decreases outer
  {
    hide Mul, Concat;
    var width := Mul(ranks, u);
    if outer > 0 {
      MulSucc(outer - 1, width);
      var parts, rest := Slices(data, outer, ranks, u), Slices(data[width..], outer - 1, ranks, u);
      forall r: nat | r < ranks
        ensures Heads(parts, u)[r] == Blocks(data, u, ranks)[r] && Tails(parts, u)[r] == rest[r]
      {
        MulFits(r, ranks, u);
        BlockAt(data, u, ranks, r);
        assert parts[r] == data[Mul(r, u)..Mul(r, u) + u] + rest[r];
      }
      assert Heads(parts, u) == Blocks(data, u, ranks) && Tails(parts, u) == rest;
      ConcatBlocks(data, u, ranks);
      JoinOfSlices(data[width..], outer - 1, ranks, u);
      assert data == data[..width] + data[width..];
    } else {
      MulZero(width);
    }
  }

  lemma {:induction false} SliceOfAll<E>(data: seq<E>, outer: nat, width: nat)
    requires |data| == Mul(outer, width)
    ensures Slice(data, outer, width, 0, width) == data
    decreases outer
  {
    hide Mul;
    if outer > 0 {
      MulSucc(outer - 1, width);
      SliceOfAll(data[width..], outer - 1, width);
      assert data == data[..width] + data[width..];
    } else {
      MulZero(width);
    }
  }

  /** What the ranks load. */
  function Shards<E>(view: View<E>, dim: nat, worldSize: nat): seq<Result<View<E>, ShardError>>
    requires dim < |view.shape| && worldSize > 0
  {
    seq(worldSize, r requires 0 <= r => Get(view, view.shape, Simple(dim, r, worldSize)))
  }

  function Datas<E>(shards: seq<Result<View<E>, ShardError>>): seq<seq<E>> {
    seq(|shards|, r requires 0 <= r < |shards| => if shards[r].Ok? then shards[r].value.data else [])
  }

  /** For dimension 0 or 1 and any number of ranks that divides it: every rank gets its shard, of equal size, and the
      shards joined along the dimension in rank order are the whole tensor. */
  lemma ShardsRebuildTensor<E>(view: View<E>, dim: nat, worldSize: nat)
    requires Valid(view) && dim < |view.shape| && dim < 2 && view.shape[dim] > 0
    requires worldSize > 0 && view.shape[dim] % worldSize == 0
    ensures forall r :: 0 <= r < worldSize ==>
              var shard := Shards(view, dim, worldSize)[r];
              shard.Ok? && Valid(shard.value) && shard.value.shape == view.shape[dim := view.shape[dim] / worldSize]
    ensures Join(Datas(Shards(view, dim, worldSize)), Outer(view.shape, dim),
                 view.shape[dim] / worldSize * Inner(view.shape, dim)) == view.data
  {
    hide Get, Slice, Join, Product, Inner, Outer;
    var block, outer, inner := view.shape[dim] / worldSize, Outer(view.shape, dim), Inner(view.shape, dim);
    var u := block * inner;
    var slices := Slices(view.data, outer, worldSize, u);
    forall r: nat | r < worldSize
      ensures Shards(view, dim, worldSize)[r] == Ok(View(view.shape[dim := block], slices[r]))
      ensures Valid(View(view.shape[dim := block], slices[r]))
    {
      ShardOfRank(view, dim, r, worldSize);
    }
    WholeWidth(view, dim, worldSize);
    assert Datas(Shards(view, dim, worldSize)) == slices;
    JoinOfSlices(view.data, outer, worldSize, u);
  }

  lemma WholeWidth<E>(view: View<E>, dim: nat, worldSize: nat)
    requires Valid(view) && dim < |view.shape| && dim < 2
    requires worldSize > 0 && view.shape[dim] % worldSize == 0
    ensures view.shape[dim] * Inner(view.shape, dim)
              == Mul(worldSize, view.shape[dim] / worldSize * Inner(view.shape, dim))
    ensures |view.data|
              == Mul(Outer(view.shape, dim), Mul(worldSize, view.shape[dim] / worldSize * Inner(view.shape, dim)))
  {
    hide Inner, Outer, Product;
    ShapeSplits(view.shape, dim);
    var block := view.shape[dim] / worldSize;
    assert view.shape[dim] == worldSize * block;
    MulAssociative(worldSize, block, Inner(view.shape, dim));
  }

  lemma ShardOfRank<E>(view: View<E>, dim: nat, r: nat, worldSize: nat)
    requires Valid(view) && dim < |view.shape| && dim < 2 && view.shape[dim] > 0
    requires r < worldSize && view.shape[dim] % worldSize == 0
    ensures var block := view.shape[dim] / worldSize;
            var part := View(view.shape[dim := block],
                             Slices(view.data, Outer(view.shape, dim), worldSize, block * Inner(view.shape, dim))[r]);
            Get(view, view.shape, Simple(dim, r, worldSize)) == Ok(part) && Valid(part)
  {
    SimpleIsNarrow(view, dim, r, worldSize);
    var block, outer, inner := view.shape[dim] / worldSize, Outer(view.shape, dim), Inner(view.shape, dim);
    WholeWidth(view, dim, worldSize);
    MulFits(r, worldSize, block);
    MulFits(r, worldSize, block * inner);
    MulAssociative(r, block, inner);
    SliceLength(view.data, outer, Mul(worldSize, block * inner), Mul(r, block * inner), block * inner);
    var shape := view.shape[dim := block];
    ShapeSplits(shape, dim);
    assert shape[dim + 1..] == view.shape[dim + 1..];
  }

  /** The shard of a rank is its block of the dimension; also when a single rank takes the whole tensor as it is. */
  lemma SimpleIsNarrow<E>(view: View<E>, dim: nat, r: nat, worldSize: nat)
    requires Valid(view) && dim < |view.shape| && dim < 2 && view.shape[dim] > 0
    requires r < worldSize && view.shape[dim] % worldSize == 0
    ensures var block := view.shape[dim] / worldSize;
            block > 0 && r * block + block <= view.shape[dim] &&
            Get(view, view.shape, Simple(dim, r, worldSize)) == Narrow(view, dim, r * block, r * block + block)
  {
    var block := view.shape[dim] / worldSize;
    assert worldSize * block == view.shape[dim];
    PositiveFactors(worldSize, block);
    MulFits(r, worldSize, block);
    assert (r + 1) * block == r * block + block;
    if worldSize == 1 {
      ShapeSplits(view.shape, dim);
      SliceOfAll(view.data, Outer(view.shape, dim), view.shape[dim] * Inner(view.shape, dim));
      assert view.shape[dim := block] == view.shape;
    }
  }

  /** So it is the shard at offset rank * block of length block. */
  lemma SimpleIsOffset<E>(view: View<E>, dim: nat, r: nat, worldSize: nat)
    requires Valid(view) && dim < |view.shape| && dim < 2 && view.shape[dim] > 0
    requires r < worldSize && view.shape[dim] % worldSize == 0
    ensures var block := view.shape[dim] / worldSize;
            Get(view, view.shape, Simple(dim, r, worldSize)) == Get(view, view.shape, Offset(dim, r * block, block))
  {
    SimpleIsNarrow(view, dim, r, worldSize);
  }

  /** No rank at or beyond the number of ranks gets a shard, nor does any rank when the dimension does not divide or is
      empty: of several ranks, exactly the others get one. */
  lemma ExactlyOtherRanksFail<E>(view: View<E>, dim: nat, r: nat, worldSize: nat)
    requires Valid(view) && dim < |view.shape| && dim < 2 && worldSize > 1
    ensures Get(view, view.shape, Simple(dim, r, worldSize)).Err? <==>
              r >= worldSize || view.shape[dim] % worldSize != 0 || view.shape[dim] == 0
  {
    var size := view.shape[dim];
    if size % worldSize == 0 && size > 0 && r < worldSize {
      ShardOfRank(view, dim, r, worldSize);
    } else if size % worldSize == 0 && r >= worldSize {
      var block := size / worldSize;
      assert worldSize * block == size;
      MulMonotone(worldSize, r, block);
    }
  }

  // ----- which file a tensor is loaded from

  /** Later files override earlier ones. */
  method Route(files: seq<set<string>>) returns (routing: map<string, nat>)
    ensures forall name :: name in routing <==> exists i :: 0 <= i < |files| && name in files[i]
    ensures forall name <- routing.Keys ::
              routing[name] < |files| && name in files[routing[name]] &&
              forall i :: routing[name] < i < |files| ==> name !in files[i]
  {
    routing := map[];
    for index := 0 to |files|
      invariant forall name :: name in routing <==> exists i :: 0 <= i < index && name in files[i]
      invariant forall name <- routing.Keys ::
                  routing[name] < index && name in files[routing[name]] &&
                  forall i :: routing[name] < i < index ==> name !in files[i]
    {
      routing := routing + map name | name in files[index] :: index;
    }
  }
}
