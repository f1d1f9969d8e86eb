/** Which caches a prompt is run on. The engine resets the caches of the model before it runs a prompt, so it must not
    look for matches; loading those of the sequence, as for completions, is what prefix reuse needs. */
module PromptStep {
  import opened Common
  import opened CausalMasker
  import opened PrefixCacher
  import opened PrefixReuse

  /** What happens to the caches before a step: those of the sequence are loaded, those left by the step before stay, or
      all are emptied. */
  datatype CacheInstruction = In | Nothing | Reset

  function PreparedCaches<E>(instruction: CacheInstruction, own: seq<KvCache<E>>,
                             left: seq<KvCache<E>>): seq<KvCache<E>> {
    match instruction
    case In => own
    case Nothing => left
    case Reset => EmptyCaches(|own|)
  }

  /** The row of the last token of a prompt of which the part before the offset is not run. */
  function PromptRow<H, E>(model: Transformer<H, E>, caches: seq<KvCache<E>>, toks: Tokens, offset: nat): H
    requires |caches| == |model.layers| > 0 && AllReady(caches, caches[0].k.currentSeqLen) && offset < |toks|
  {
    Forward(model, caches, toks[offset..], offset).0[|toks| - offset - 1]
  }

  ghost function ScratchRow<H, E>(model: Transformer<H, E>, toks: Tokens): H
    requires |model.layers| > 0 && toks != []
  {
    Scratch(model, toks).0[|toks| - 1]
  }

  /** Whatever the model and whatever the step before left: with the sequence's own caches loaded the row is right. */
  lemma LoadingIsRight<H, E>(model: Transformer<H, E>, own: seq<KvCache<E>>, left: seq<KvCache<E>>, toks: Tokens,
                             offset: nat)
    requires |model.layers| > 0 && offset < |toks| && Agrees(model, own, toks[..offset])
    ensures PromptRow(model, PreparedCaches(In, own, left), toks, offset) == ScratchRow(model, toks)
  {
    hide Scratch, Forward;
    AgreesIsReady(model, own, toks[..offset]);
    ReuseEqualsScratch(model, own, toks[..offset], toks[offset..]);
    assert toks[..offset] + toks[offset..] == toks;
  }

  /** Whatever the model: with the caches left by the step before the row is right if they are those of the matched
      part. */
  lemma LeavingIsRight<H, E>(model: Transformer<H, E>, own: seq<KvCache<E>>, left: seq<KvCache<E>>, toks: Tokens,
                             offset: nat)
    requires |model.layers| > 0 && offset < |toks| && Agrees(model, left, toks[..offset])
    ensures PromptRow(model, PreparedCaches(Nothing, own, left), toks, offset) == ScratchRow(model, toks)
  {
    LoadingIsRight(model, left, left, toks, offset);
  }

  // ----- a model for which nothing else is right

  /** A token that comes in, or the entries that a position sees. */
  datatype Hidden = Input(tok: Token) | Seen(entries: map<nat, (Token, Token)>)

  function TokenOf(h: Hidden): Token {
    if h.Input? then h.tok else 0
  }

  /** The model of one layer that writes the tokens down and yields all it sees. */
  function Reading(): Transformer<Hidden, Token> {
    Transformer((t, p) => Input(t), [Layer(Cpu, (h, p) => TokenOf(h), (h, p) => TokenOf(h), (h, p, m) => Seen(m))])
  }

  function Pairs(toks: Tokens): (pairs: seq<(Token, Token)>)
    ensures |pairs| == |toks|
  {
    seq(|toks|, i requires 0 <= i < |toks| => (toks[i], toks[i]))
  }

  lemma PairsDetermine(a: Tokens, b: Tokens)
    requires Pairs(a) == Pairs(b)
    ensures a == b
  {
    assert forall i :: 0 <= i < |a| ==> Pairs(a)[i].0 == a[i] && Pairs(b)[i].0 == b[i];
  }

  lemma AllEntriesOfOne(caches: seq<KvCache<Token>>)
    requires |caches| == 1
    ensures AllEntries(caches) == [Entries(caches[0])]
  {
  }

  lemma RunOneLayer<H, E>(layer: Layer<H, E>, caches: seq<KvCache<E>>, bias: Option<Matrix<Bias>>, hs: seq<H>,
                          offset: nat, past: nat)
    requires |caches| == 1 && AllReady(caches, past) && Fits(bias, |hs|, past + |hs|)
    ensures Ready(caches[0], past)
    ensures var cache := LayerCache(layer, caches[0], hs, offset, past);
            RunLayers([layer], caches, bias, hs, offset, past)
              == (LayerOutput(layer, Entries(cache), bias, hs, offset), [cache])
  {
    hide LayerCache, LayerOutput, Entries;
    var cache := LayerCache(layer, caches[0], hs, offset, past);
    var rest := RunLayers([layer][1..], caches[1..], bias, LayerOutput(layer, Entries(cache), bias, hs, offset),
                          offset, past);
    assert rest.1 == [] && [cache] + rest.1 == [cache];
  }

  /** What a run of this model yields and writes. */
  lemma ReadingRun(caches: seq<KvCache<Token>>, toks: Tokens, offset: nat, past: nat)
    requires |caches| == 1 && AllReady(caches, past) && toks != []
    ensures caches[0].k.currentSeqLen == past && |Entries(caches[0])| == past
    ensures var entries := Entries(caches[0]) + Pairs(toks);
            var run := Forward(Reading(), caches, toks, offset);
            AllEntries(run.1) == [entries] && run.0[|toks| - 1] == Seen(FirstEntries(entries, |entries|))
  {
    hide MakeCausalMaskMatrix, LayerCache, Entries, VisibleEntries;
    assert Ready(caches[0], past);
    var layer, hs, bias := Reading().layers[0], Embedded(Reading(), toks, offset), MakeCausalMaskMatrix(|toks|, past);
    var cache := LayerCache(layer, caches[0], hs, offset, past);
    assert NewEntries(layer, hs, offset) == Pairs(toks);
    RunOneLayer(layer, caches, bias, hs, offset, past);
    AllEntriesOfOne([cache]);
    VisibleAreFirst(Entries(cache), |hs|, past, |hs| - 1);
  }

  lemma ReadingScratch(toks: Tokens)
    ensures AllEntries(Scratch(Reading(), toks).1) == [Pairs(toks)]
    ensures toks != [] ==> ScratchRow(Reading(), toks) == Seen(FirstEntries(Pairs(toks), |toks|))
  {
    hide Forward, AllEntries;
    var empty: seq<KvCache<Token>> := EmptyCaches(1);
    if toks == [] {
      EmptyAgrees(Reading());
      assert AllEntries(empty) == [Pairs([])];
    } else {
      ReadingRun(empty, toks, 0, 0);
      assert Entries(empty[0]) + Pairs(toks) == Pairs(toks);
    }
  }

  lemma FirstEntriesDetermine(a: seq<(Token, Token)>, b: seq<(Token, Token)>)
    ensures FirstEntries(a, |a|) == FirstEntries(b, |b|) <==> a == b
  {
    var ma, mb := FirstEntries(a, |a|), FirstEntries(b, |b|);
    assert |a| < |b| ==> |a| !in ma.Keys && |a| in mb.Keys;
    assert |b| < |a| ==> |b| in ma.Keys && |b| !in mb.Keys;
    if ma == mb {
      assert forall i: nat :: i < |a| ==> ma[i] == a[i] && mb[i] == b[i];
    }
  }

  /** And only then: caches of whatever length and content give this model the right row exactly if they are those of
      the matched part. */
  lemma RowNeedsEntries(caches: seq<KvCache<Token>>, toks: Tokens, offset: nat, past: nat)
    requires |caches| == 1 && AllReady(caches, past) && offset < |toks|
    ensures caches[0].k.currentSeqLen == past
    ensures PromptRow(Reading(), caches, toks, offset) == ScratchRow(Reading(), toks) <==>
              Agrees(Reading(), caches, toks[..offset])
  {
    hide Forward, Scratch, Entries, AllEntries, ScratchRow, FirstEntries, Pairs;
    var stored, rest := Entries(caches[0]), toks[offset..];
    ReadingRun(caches, rest, offset, past);
    ReadingScratch(toks);
    ReadingScratch(toks[..offset]);
    AllEntriesOfOne(caches);
    assert Pairs(toks) == Pairs(toks[..offset]) + Pairs(rest) by { PairsSplit(toks, offset); }
    if PromptRow(Reading(), caches, toks, offset) == ScratchRow(Reading(), toks) {
      FirstEntriesDetermine(stored + Pairs(rest), Pairs(toks));
      assert stored == (stored + Pairs(rest))[..past] == (Pairs(toks[..offset]) + Pairs(rest))[..offset]
               == Pairs(toks[..offset]);
    }
    if Agrees(Reading(), caches, toks[..offset]) {
      LoadingIsRight(Reading(), caches, caches, toks, offset);
    }
  }

  lemma PairsSplit(toks: Tokens, offset: nat)
    requires offset <= |toks|
    ensures Pairs(toks) == Pairs(toks[..offset]) + Pairs(toks[offset..])
  {
  }

  /** Emptied caches: right exactly if no match was taken. */
  lemma ResetForgetsMatch(own: seq<KvCache<Token>>, left: seq<KvCache<Token>>, toks: Tokens, offset: nat)
    requires |own| == 1 && offset < |toks|
    ensures PromptRow(Reading(), PreparedCaches(Reset, own, left), toks, offset) == ScratchRow(Reading(), toks) <==>
              offset == 0
  {
    hide Forward, Scratch, AllEntries, ScratchRow, PromptRow;
    var empty: seq<KvCache<Token>> := EmptyCaches(1);
    RowNeedsEntries(empty, toks, offset, 0);
    EmptyAgrees(Reading());
    assert offset == 0 ==> toks[..offset] == [];
    if Agrees(Reading(), empty, toks[..offset]) {
      AgreesIsReady(Reading(), empty, toks[..offset]);
    }
  }

  /** Caches left by a step that ran some text: right exactly if that text is the matched part. The right length is not
      enough. */
  lemma NothingNeedsSameText(own: seq<KvCache<Token>>, previous: Tokens, toks: Tokens, offset: nat)
    requires offset < |toks|
    ensures PromptRow(Reading(), PreparedCaches(Nothing, own, Scratch(Reading(), previous).1), toks, offset)
              == ScratchRow(Reading(), toks)
       <==> previous == toks[..offset]
  {
    hide Forward, Scratch, AllEntries, ScratchRow, PromptRow, Pairs;
    var left := Scratch(Reading(), previous).1;
    RowNeedsEntries(left, toks, offset, |previous|);
    ReadingScratch(previous);
    ReadingScratch(toks[..offset]);
    if Agrees(Reading(), left, toks[..offset]) {
      PairsDetermine(previous, toks[..offset]);
    }
  }

  /** A prompt as the engine runs it, with the prefix cache switched off and emptied caches, is right whatever the
      model. */
  lemma SwitchedOffIsRight<H, E(!new)>(model: Transformer<H, E>, own: seq<KvCache<E>>, left: seq<KvCache<E>>,
                                       stored: map<Tokens, LayerCaches<E>>, device: Device, toks: Tokens,
                                       r: Option<MatchingCache<E>>)
    requires |own| == |model.layers| > 0 && toks != [] && IsSearchResult(stored, device, true, toks, false, r)
    ensures r == None && PromptRow(model, PreparedCaches(Reset, own, left), toks, 0) == ScratchRow(model, toks)
  {
    hide Forward;
    assert toks[0..] == toks;
  }
}
