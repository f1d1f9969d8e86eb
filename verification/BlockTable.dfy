/** The paged token block table of a sequence. A failed assertion or an index out of bounds in the
    program is the answer None here. */
module BlockTable {
  import opened Common

  /** A block is allocated with room for blockSize tokens; popping a token also gives up the last place of that room. */
  datatype LogicalTokenBlock = LogicalTokenBlock(tokens: seq<nat>, blockSize: nat, numTokens: nat) {
    predicate IsFull() { numTokens == blockSize }

    predicate IsEmpty() { numTokens == 0 }

    function AppendTokenId(token: nat): Option<LogicalTokenBlock> {
      if IsFull() || numTokens >= |tokens| then None
      else Some(LogicalTokenBlock(tokens[numTokens := token], blockSize, numTokens + 1))
    }

    function PopToken(): Option<LogicalTokenBlock> {
      if numTokens == 0 then None
      else Some(LogicalTokenBlock(if tokens == [] then [] else tokens[..|tokens| - 1], blockSize, numTokens - 1))
    }

    function Contents(): seq<nat> { tokens[..Min(numTokens, |tokens|)] }

    /** Nothing was ever popped. */
    ghost predicate Intact(size: nat) { blockSize == size == |tokens| && numTokens <= size }
  }

  function NewBlock(blockSize: nat): LogicalTokenBlock {
    LogicalTokenBlock(seq(blockSize, _ => 0), blockSize, 0)
  }

  datatype SequenceCustomMetadata =
    | PagedAttention(logicalTokenBlocks: seq<LogicalTokenBlock>, blockSize: nat)
    | NoMetadata

  function WithLast(blocks: seq<LogicalTokenBlock>, last: LogicalTokenBlock): seq<LogicalTokenBlock>
    requires blocks != []
  {
    blocks[..|blocks| - 1] + [last]
  }

  function Append(meta: SequenceCustomMetadata, tok: nat): Option<SequenceCustomMetadata> {
    match meta
    case NoMetadata => Some(meta)
    case PagedAttention(blocks, blockSize) =>
      var present := if blocks == [] then [NewBlock(blockSize)] else blocks;
      var last := present[|present| - 1].AppendTokenId(tok);
      if last.None? then None
      else
        var appended := WithLast(present, last.value);
        Some(PagedAttention(if last.value.IsFull() then appended + [NewBlock(blockSize)] else appended, blockSize))
  }

  function AppendAll(meta: SequenceCustomMetadata, toks: seq<nat>): Option<SequenceCustomMetadata> {
    if toks == [] then Some(meta)
    else
      var most := AppendAll(meta, toks[..|toks| - 1]);
      if most.None? then None else Append(most.value, toks[|toks| - 1])
  }

  function Pop(meta: SequenceCustomMetadata): Option<SequenceCustomMetadata> {
    match meta
    case NoMetadata => Some(meta)
    case PagedAttention(blocks, blockSize) =>
      if blocks == [] then None
      else
        var last := blocks[|blocks| - 1].PopToken();
        if last.None? then None else Some(PagedAttention(WithLast(blocks, last.value), blockSize))
  }

  function Remove(meta: SequenceCustomMetadata, n: nat): Option<SequenceCustomMetadata> {
    if n == 0 then Some(meta)
    else
      var most := Remove(meta, n - 1);
      if most.None? then None else Pop(most.value)
  }

  function BlocksToAddNewTok(blocks: seq<LogicalTokenBlock>): nat {
    if !(blocks != [] && (blocks[|blocks| - 1].IsFull() || blocks[|blocks| - 1].IsEmpty())) then 0 else 1
  }

  // ----- what the table stands for

  ghost function Flatten(blocks: seq<LogicalTokenBlock>): seq<nat> {
    if blocks == [] then [] else Flatten(blocks[..|blocks| - 1]) + blocks[|blocks| - 1].Contents()
  }

  ghost function TableContents(blocks: seq<LogicalTokenBlock>): seq<seq<nat>> {
    seq(|blocks|, i requires 0 <= i < |blocks| => blocks[i].Contents())
  }

  /** The blocks hold the tokens in order, and all of them but the last are full. */
  ghost predicate Table(blocks: seq<LogicalTokenBlock>, blockSize: nat, toks: seq<nat>) {
    && (forall i :: 0 <= i < |blocks| ==> blocks[i].Intact(blockSize))
    && Flatten(blocks) == toks
    && (forall i :: 0 <= i < |blocks| - 1 ==> blocks[i].IsFull())
    && (blocks != [] ==> !blocks[|blocks| - 1].IsFull())
    && (blocks == [] <==> toks == [])
  }

  ghost predicate Canonical(meta: SequenceCustomMetadata, toks: seq<nat>) {
    meta.PagedAttention? ==> meta.blockSize >= 1 && Table(meta.logicalTokenBlocks, meta.blockSize, toks)
  }

  lemma FlattenLast(blocks: seq<LogicalTokenBlock>, last: LogicalTokenBlock)
    ensures Flatten(blocks + [last]) == Flatten(blocks) + last.Contents()
  {
  }

  /** What appending does to a last block with room. */
  lemma AppendToLast(front: seq<LogicalTokenBlock>, last: LogicalTokenBlock, blockSize: nat, tok: nat)
    ensures var r := Append(PagedAttention(front + [last], blockSize), tok);
            if last.AppendTokenId(tok).None? then r == None
            else
              var last' := last.AppendTokenId(tok).value;
              var added := if last'.IsFull() then [NewBlock(blockSize)] else [];
              r == Some(PagedAttention(front + [last'] + added, blockSize))
  {
    var blocks := front + [last];
    assert blocks[..|blocks| - 1] == front;
    if last.AppendTokenId(tok).Some? {
      var last' := last.AppendTokenId(tok).value;
      assert front + [last'] + [] == front + [last'];
    }
  }

  /** Appending never fails on a canonical table, and keeps it canonical. */
  lemma AppendKeepsTable(meta: SequenceCustomMetadata, toks: seq<nat>, tok: nat)
    requires Canonical(meta, toks)
    ensures Append(meta, tok).Some? && Canonical(Append(meta, tok).value, toks + [tok])
    ensures meta.PagedAttention? <==> Append(meta, tok).value.PagedAttention?
    ensures meta.PagedAttention? ==> Append(meta, tok).value.blockSize == meta.blockSize
  {
    if meta.PagedAttention? {
      var blocks, size := meta.logicalTokenBlocks, meta.blockSize;
      if blocks == [] {
        assert [] + [NewBlock(size)] == [NewBlock(size)];
        assert Append(meta, tok) == Append(PagedAttention([] + [NewBlock(size)], size), tok);
        AppendToOpenTable([], NewBlock(size), size, [], tok);
      } else {
        var n := |blocks| - 1;
        assert blocks == blocks[..n] + [blocks[n]];
        AppendToOpenTable(blocks[..n], blocks[n], size, toks, tok);
      }
    }
  }

  lemma AppendToOpenTable(front: seq<LogicalTokenBlock>, last: LogicalTokenBlock, size: nat, toks: seq<nat>, tok: nat)
    requires size >= 1 && last.Intact(size) && !last.IsFull() && Flatten(front + [last]) == toks
    requires forall i :: 0 <= i < |front| ==> front[i].Intact(size) && front[i].IsFull()
    ensures Append(PagedAttention(front + [last], size), tok).Some?
    ensures Append(PagedAttention(front + [last], size), tok).value.PagedAttention?
    ensures Append(PagedAttention(front + [last], size), tok).value.blockSize == size
    ensures Table(Append(PagedAttention(front + [last], size), tok).value.logicalTokenBlocks, size, toks + [tok])
  {
    hide Append, Table, Flatten;
    AppendToLast(front, last, size, tok);
    AppendedContents(last, tok);
    var last' := last.AppendTokenId(tok).value;
    FlattenLast(front, last);
    assert Flatten(front) + last'.Contents() == toks + [tok];
    hide LogicalTokenBlock.AppendTokenId, LogicalTokenBlock.Contents;
    if last'.IsFull() {
      FlattenLast(front, last');
      EmptyBlock(size);
      TableOf(front + [last'], NewBlock(size), size);
    } else {
      TableOf(front, last', size);
      assert front + [last'] + [] == front + [last'];
    }
  }

  lemma AppendedContents(b: LogicalTokenBlock, tok: nat)
    requires b.Intact(b.blockSize) && !b.IsFull()
    ensures b.AppendTokenId(tok).Some? && b.AppendTokenId(tok).value.Intact(b.blockSize)
    ensures b.AppendTokenId(tok).value.Contents() == b.Contents() + [tok]
  {
  }

  lemma EmptyBlock(size: nat)
    ensures NewBlock(size).Intact(size) && NewBlock(size).Contents() == []
    ensures size >= 1 ==> !NewBlock(size).IsFull()
    ensures forall toks: seq<nat> :: toks + NewBlock(size).Contents() == toks
  {
  }

  lemma TableOf(front: seq<LogicalTokenBlock>, last: LogicalTokenBlock, size: nat)
    requires last.Intact(size) && !last.IsFull() && Flatten(front) + last.Contents() != []
    requires forall i :: 0 <= i < |front| ==> front[i].Intact(size) && front[i].IsFull()
    ensures Table(front + [last], size, Flatten(front) + last.Contents())
  {
    hide Flatten, LogicalTokenBlock.Contents;
    FlattenLast(front, last);
  }

  lemma {:induction false} AppendAllKeepsTable(meta: SequenceCustomMetadata, toks: seq<nat>, more: seq<nat>)
    requires Canonical(meta, toks)
    ensures AppendAll(meta, more).Some? && Canonical(AppendAll(meta, more).value, toks + more)
    ensures meta.PagedAttention? <==> AppendAll(meta, more).value.PagedAttention?
    ensures meta.PagedAttention? ==> AppendAll(meta, more).value.blockSize == meta.blockSize
    decreases |more|
  {
    hide Append, Canonical;
    if more == [] {
      assert toks + more == toks;
    } else {
      var most := more[..|more| - 1];
      AppendAllKeepsTable(meta, toks, most);
      AppendKeepsTable(AppendAll(meta, most).value, toks + most, more[|more| - 1]);
      assert toks + most + [more[|more| - 1]] == toks + more;
    }
  }

  lemma {:induction false} FullBlocksLength(blocks: seq<LogicalTokenBlock>, blockSize: nat)
    requires forall i :: 0 <= i < |blocks| ==> blocks[i].Intact(blockSize) && blocks[i].IsFull()
    ensures |Flatten(blocks)| == |blocks| * blockSize
    decreases |blocks|
  {
    if blocks != [] {
      var n := |blocks| - 1;
      FullBlocksLength(blocks[..n], blockSize);
      assert |blocks[n].Contents()| == blockSize;
      assert n * blockSize + blockSize == |blocks| * blockSize;
    }
  }

  /** The number of blocks, and how far the last one is filled. */
  lemma TableShape(blocks: seq<LogicalTokenBlock>, blockSize: nat, toks: seq<nat>)
    requires blockSize >= 1 && Table(blocks, blockSize, toks)
    ensures |blocks| == if toks == [] then 0 else |toks| / blockSize + 1
    ensures blocks != [] ==> blocks[|blocks| - 1].numTokens == |toks| % blockSize
  {
    if blocks != [] {
      var n := |blocks| - 1;
      FullBlocksLength(blocks[..n], blockSize);
      DivModUnique(|toks|, blockSize, n, blocks[n].numTokens);
    }
  }

  /** A new block is asked for exactly when the tokens fill whole blocks. */
  lemma BlocksToAddIsExact(blocks: seq<LogicalTokenBlock>, blockSize: nat, toks: seq<nat>)
    requires blockSize >= 1 && Table(blocks, blockSize, toks)
    ensures BlocksToAddNewTok(blocks) == if toks != [] && |toks| % blockSize == 0 then 1 else 0
  {
    TableShape(blocks, blockSize, toks);
  }

  lemma LastOfTable(blocks: seq<LogicalTokenBlock>, size: nat, toks: seq<nat>)
    requires Table(blocks, size, toks) && toks != []
    ensures blocks != [] && blocks[|blocks| - 1].Intact(size)
  {
  }

  // ----- temporary tokens

  /** The block after appending more tokens that fit, and after popping n of them. */
  function Filled(b: LogicalTokenBlock, more: seq<nat>): LogicalTokenBlock
    requires b.numTokens + |more| <= |b.tokens|
  {
    LogicalTokenBlock(b.tokens[..b.numTokens] + more + b.tokens[b.numTokens + |more|..], b.blockSize,
                      b.numTokens + |more|)
  }

  function Drained(b: LogicalTokenBlock, n: nat): LogicalTokenBlock
    requires n <= b.numTokens <= |b.tokens|
  {
    LogicalTokenBlock(b.tokens[..|b.tokens| - n], b.blockSize, b.numTokens - n)
  }

  /** Appending within the last block touches nothing else; it fails once the room that pops left is used up. */
  lemma {:induction false} AppendWithinBlock(front: seq<LogicalTokenBlock>, last: LogicalTokenBlock, size: nat,
                                             more: seq<nat>)
    requires last.blockSize == size && last.numTokens <= |last.tokens| && last.numTokens + |more| < size
    ensures AppendAll(PagedAttention(front + [last], size), more)
         == if last.numTokens + |more| > |last.tokens| then None
            else Some(PagedAttention(front + [Filled(last, more)], size))
    decreases |more|
  {
    hide Append, Filled, LogicalTokenBlock.AppendTokenId;
    if more == [] {
      assert Filled(last, []) == last by { FilledNothing(last); }
    } else {
      var n := |more| - 1;
      AppendWithinBlock(front, last, size, more[..n]);
      if last.numTokens + n <= |last.tokens| {
        AppendToLast(front, Filled(last, more[..n]), size, more[n]);
        FilledOneMore(last, more);
        if last.numTokens + |more| <= |last.tokens| {
          assert front + [Filled(last, more)] + [] == front + [Filled(last, more)];
        }
      }
    }
  }

  lemma FilledNothing(b: LogicalTokenBlock)
    requires b.numTokens <= |b.tokens|
    ensures Filled(b, []) == b
  {
  }

  lemma FilledOneMore(b: LogicalTokenBlock, more: seq<nat>)
    requires more != [] && b.numTokens + |more| - 1 <= |b.tokens| && b.numTokens + |more| < b.blockSize
    ensures var n := |more| - 1;
            Filled(b, more[..n]).AppendTokenId(more[n]) ==
              if b.numTokens + |more| <= |b.tokens| then Some(Filled(b, more)) else None
    ensures b.numTokens + |more| <= |b.tokens| ==> !Filled(b, more).IsFull()
  {
    var filled := Filled(b, more[..|more| - 1]);
    if b.numTokens + |more| <= |b.tokens| {
      assert filled.tokens[filled.numTokens := more[|more| - 1]] == Filled(b, more).tokens;
    }
  }

  /** A block that lost some of its room takes what is left of it, and is never completed. */
  lemma {:induction false} ShortBlockTakes(front: seq<LogicalTokenBlock>, last: LogicalTokenBlock, size: nat,
                                           more: seq<nat>)
    requires last.blockSize == size && last.numTokens <= |last.tokens| < size
    ensures AppendAll(PagedAttention(front + [last], size), more).Some? <==> last.numTokens + |more| <= |last.tokens|
    decreases |more|
  {
    hide Append;
    if more != [] {
      var n := |more| - 1;
      ShortBlockTakes(front, last, size, more[..n]);
      if last.numTokens + n <= |last.tokens| {
        AppendWithinBlock(front, last, size, more[..n]);
        AppendToLast(front, Filled(last, more[..n]), size, more[n]);
      }
    }
  }

  lemma PopFromLast(front: seq<LogicalTokenBlock>, last: LogicalTokenBlock, size: nat)
    ensures Pop(PagedAttention(front + [last], size))
         == if last.PopToken().None? then None else Some(PagedAttention(front + [last.PopToken().value], size))
  {
  }

  /** Removing works on the last block alone, and fails once that block is empty. */
  lemma {:induction false} RemoveFromLast(front: seq<LogicalTokenBlock>, last: LogicalTokenBlock, size: nat, n: nat)
    requires last.numTokens <= |last.tokens|
    ensures Remove(PagedAttention(front + [last], size), n)
         == if n <= last.numTokens then Some(PagedAttention(front + [Drained(last, n)], size)) else None
    decreases n
  {
    hide Pop;
    if n == 0 {
      assert Drained(last, 0) == last;
    } else {
      RemoveFromLast(front, last, size, n - 1);
      if n - 1 <= last.numTokens {
        PopFromLast(front, Drained(last, n - 1), size);
        if n <= last.numTokens {
          assert last.tokens[..|last.tokens| - (n - 1)][..|last.tokens| - n] == last.tokens[..|last.tokens| - n];
          assert Drained(last, n - 1).PopToken() == Some(Drained(last, n));
        }
      }
    }
  }

  /** Adding temporary tokens and removing them again works exactly when they do not complete the last block,
      and then restores the table exactly when there was one. The room of the block is not restored: it takes
      that many fewer tokens, so whatever would complete it goes out of bounds. */
  lemma TmpTokensRoundTrip(blocks: seq<LogicalTokenBlock>, size: nat, toks: seq<nat>, tmp: seq<nat>, more: seq<nat>)
    requires size >= 1 && Table(blocks, size, toks) && tmp != []
    ensures AppendAll(PagedAttention(blocks, size), tmp).Some?
    ensures var r := Remove(AppendAll(PagedAttention(blocks, size), tmp).value, |tmp|);
      (r.Some? <==> |toks| % size + |tmp| < size) &&
      (r.Some? ==> r.value.PagedAttention? &&
                   TableContents(r.value.logicalTokenBlocks) == if toks == [] then [[]] else TableContents(blocks)) &&
      (r.Some? ==> (AppendAll(r.value, more).Some? <==> |toks| % size + |more| + |tmp| <= size))
  {
    hide AppendAll, Remove, Table, TableContents;
    AppendAllKeepsTable(PagedAttention(blocks, size), toks, tmp) by {
      assert Canonical(PagedAttention(blocks, size), toks);
    }
    if |toks| % size + |tmp| < size {
      TmpTokensFit(blocks, size, toks, tmp, more);
    } else {
      TmpTokensOverflow(blocks, size, toks, tmp);
    }
  }

  lemma TmpTokensOverflow(blocks: seq<LogicalTokenBlock>, size: nat, toks: seq<nat>, tmp: seq<nat>)
    requires size >= 1 && Table(blocks, size, toks) && tmp != [] && |toks| % size + |tmp| >= size
    ensures AppendAll(PagedAttention(blocks, size), tmp).Some?
    ensures Remove(AppendAll(PagedAttention(blocks, size), tmp).value, |tmp|).None?
  {
    hide AppendAll, Remove;
    AppendAllKeepsTable(PagedAttention(blocks, size), toks, tmp);
    var after := AppendAll(PagedAttention(blocks, size), tmp).value.logicalTokenBlocks;
    LastOfTable(after, size, toks + tmp);
    TableShape(after, size, toks + tmp);
    ModOfSum(|toks|, |tmp|, size);
    hide Table;
    var n := |after| - 1;
    assert after == after[..n] + [after[n]];
    RemoveFromLast(after[..n], after[n], size, |tmp|);
  }

  lemma TmpTokensFit(blocks: seq<LogicalTokenBlock>, size: nat, toks: seq<nat>, tmp: seq<nat>, more: seq<nat>)
    requires size >= 1 && Table(blocks, size, toks) && tmp != [] && |toks| % size + |tmp| < size
    ensures AppendAll(PagedAttention(blocks, size), tmp).Some?
    ensures var r := Remove(AppendAll(PagedAttention(blocks, size), tmp).value, |tmp|);
      r.Some? && r.value.PagedAttention? &&
      TableContents(r.value.logicalTokenBlocks) == (if toks == [] then [[]] else TableContents(blocks)) &&
      (AppendAll(r.value, more).Some? <==> |toks| % size + |more| + |tmp| <= size)
  {
    hide AppendAll, Remove;
    var present := if toks == [] then [NewBlock(size)] else blocks;
    var n := |present| - 1;
    var front, last := present[..n], present[n];
    assert present == front + [last];
    if toks == [] {
      ModSmall(0, size);
      AppendToNothing(size, tmp);
    } else {
      TableShape(blocks, size, toks);
    }
    FitAndDrain(front, last, size, tmp, more);
    assert last.Contents() == [] || toks != [];
    assert TableContents([NewBlock(size)]) == [[]];
  }

  lemma FitAndDrain(front: seq<LogicalTokenBlock>, last: LogicalTokenBlock, size: nat, tmp: seq<nat>, more: seq<nat>)
    requires last.Intact(size) && last.numTokens + |tmp| < size && tmp != []
    ensures AppendAll(PagedAttention(front + [last], size), tmp).Some?
    ensures var r := Remove(AppendAll(PagedAttention(front + [last], size), tmp).value, |tmp|);
      r.Some? && r.value.PagedAttention? &&
      TableContents(r.value.logicalTokenBlocks) == TableContents(front + [last]) &&
      (AppendAll(r.value, more).Some? <==> last.numTokens + |more| + |tmp| <= size)
  {
    hide AppendAll, Remove;
    AppendWithinBlock(front, last, size, tmp);
    var filled := Filled(last, tmp);
    RemoveFromLast(front, filled, size, |tmp|);
    var left := Drained(filled, |tmp|);
    assert left.Contents() == last.Contents();
    assert TableContents(front + [left]) == TableContents(front + [last]);
    ShortBlockTakes(front, left, size, more);
  }

  lemma {:induction false} AppendToNothing(blockSize: nat, tmp: seq<nat>)
    requires tmp != [] && |tmp| < blockSize
    ensures AppendAll(PagedAttention([], blockSize), tmp)
              == AppendAll(PagedAttention([NewBlock(blockSize)], blockSize), tmp)
    decreases |tmp|
  {
    if |tmp| > 1 {
      AppendToNothing(blockSize, tmp[..|tmp| - 1]);
    } else {
      assert tmp[..0] == [];
    }
  }
}
