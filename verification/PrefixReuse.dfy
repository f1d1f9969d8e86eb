/** Serving requests with the prefix cache: reused caches give the outputs of running from scratch. A cache is a value
    here, so what is reused is a copy of what is stored. */
module PrefixReuse {
  import opened Common
  import opened CausalMasker
  import opened PrefixCacher

  /** A layer writes a key and a value for each position, from the hidden state and the position, and
      computes its output from the entries of the positions the mask leaves visible. */
  datatype Layer<!H, !E> = Layer(device: Device, key: (H, nat) -> E, value: (H, nat) -> E,
                                 attend: (H, nat, map<nat, (E, E)>) -> H)

  datatype Transformer<!H, !E> = Transformer(embed: (Token, nat) -> H, layers: seq<Layer<H, E>>)

  // ----- key-value caches as the layers use them

  predicate Holds<E>(c: SingleCache<E>) {
    c.currentSeqLen <= if c.allData.Some? then |c.allData.value.entries| else 0
  }

  function Current<E>(c: SingleCache<E>): (s: seq<E>)
    ensures Holds(c) ==> |s| == c.currentSeqLen
  {
    if c.allData.Some? && Holds(c) then c.allData.value.entries[..c.currentSeqLen] else []
  }

  /** Writes over whatever is stored behind the current length. */
  function AppendSingle<E>(c: SingleCache<E>, more: seq<E>, device: Device): (r: SingleCache<E>)
    requires Holds(c)
    ensures Holds(r) && r.allData.Some? && r.currentSeqLen == c.currentSeqLen + |more|
    ensures Current(r) == Current(c) + more
  {
    var stored := if c.allData.Some? then c.allData.value.entries else [];
    var end := c.currentSeqLen + |more|;
    var stale := if end <= |stored| then stored[end..] else [];
    var written := stored[..c.currentSeqLen] + more + stale;
    assert written[..end] == Current(c) + more;
    SingleCache(Some(Tensor(written, if c.allData.Some? then c.allData.value.device else device)), end)
  }

  predicate Ready<E>(c: KvCache<E>, len: nat) {
    Holds(c.k) && Holds(c.v) && c.k.currentSeqLen == c.v.currentSeqLen == len
  }

  predicate AllReady<E>(caches: seq<KvCache<E>>, len: nat) {
    forall i :: 0 <= i < |caches| ==> Ready(caches[i], len)
  }

  function Entries<E>(c: KvCache<E>): (s: seq<(E, E)>)
    ensures forall len: nat :: Ready(c, len) ==> |s| == len
  {
    var keys, values := Current(c.k), Current(c.v);
    seq(Min(|keys|, |values|), j requires 0 <= j < |keys| && j < |values| => (keys[j], values[j]))
  }

  /** An entry is the key and the value at its place. */
  lemma EntryAt<E>(c: KvCache<E>, len: nat, j: nat)
    requires Ready(c, len) && j < len
    ensures c.k.allData.Some? && c.v.allData.Some?
    ensures Entries(c)[j] == (c.k.allData.value.entries[j], c.v.allData.value.entries[j])
  {
  }

  ghost function AllEntries<E>(caches: seq<KvCache<E>>): (s: seq<seq<(E, E)>>)
    ensures |s| == |caches|
    ensures forall i :: 0 <= i < |caches| ==> s[i] == Entries(caches[i])
  {
    if caches == [] then [] else [Entries(caches[0])] + AllEntries(caches[1..])
  }

  /** The first n entries of every layer. */
  ghost function Cut<E>(entries: seq<seq<(E, E)>>, n: nat): (s: seq<seq<(E, E)>>)
    ensures |s| == |entries| && forall i :: 0 <= i < |entries| && n <= |entries[i]| ==> s[i] == entries[i][..n]
  {
    if entries == [] then [] else [entries[0][..Min(n, |entries[0]|)]] + Cut(entries[1..], n)
  }

  // ----- one layer

  ghost predicate Fits(bias: Option<Matrix<Bias>>, rows: nat, cols: nat) {
    bias.Some? ==> bias.value.Valid() && bias.value.rows == rows && bias.value.cols == cols
  }

  function NewEntries<H, E>(layer: Layer<H, E>, hs: seq<H>, offset: nat): (r: seq<(E, E)>)
    ensures |r| == |hs|
    ensures forall i :: 0 <= i < |hs| ==>
              r[i].0 == layer.key(hs[i], offset + i) && r[i].1 == layer.value(hs[i], offset + i)
  {
    seq(|hs|, i requires 0 <= i < |hs| => (layer.key(hs[i], offset + i), layer.value(hs[i], offset + i)))
  }

  function LayerCache<H, E>(layer: Layer<H, E>, cache: KvCache<E>, hs: seq<H>, offset: nat,
                            ghost past: nat): (r: KvCache<E>)
    requires Ready(cache, past)
    ensures Ready(r, past + |hs|) && r.k.allData.Some?
    ensures Entries(r) == Entries(cache) + NewEntries(layer, hs, offset)
  {
    var keys := seq(|hs|, i requires 0 <= i < |hs| => layer.key(hs[i], offset + i));
    var values := seq(|hs|, i requires 0 <= i < |hs| => layer.value(hs[i], offset + i));
    KvCache(AppendSingle(cache.k, keys, layer.device), AppendSingle(cache.v, values, layer.device))
  }

  function VisibleEntries<E>(entries: seq<(E, E)>, bias: Option<Matrix<Bias>>, i: nat,
                             ghost rows: nat): map<nat, (E, E)>
    requires Fits(bias, rows, |entries|) && i < rows
  {
    map j: nat | 0 <= j < |entries| && Visible(bias, i, j) :: entries[j]
  }

  function LayerOutput<H, E>(layer: Layer<H, E>, entries: seq<(E, E)>, bias: Option<Matrix<Bias>>, hs: seq<H>,
                             offset: nat): (r: seq<H>)
    requires Fits(bias, |hs|, |entries|)
    ensures |r| == |hs|
  {
    seq(|hs|, i requires 0 <= i < |hs| => layer.attend(hs[i], offset + i, VisibleEntries(entries, bias, i, |hs|)))
  }

  ghost function FirstEntries<E>(entries: seq<(E, E)>, n: nat): map<nat, (E, E)>
    requires n <= |entries|
  {
    map j: nat | 0 <= j < n :: entries[j]
  }

  /** What the mask makes of a layer: each position attends to itself and to everything before it. */
  ghost function CausalOutput<H, E>(layer: Layer<H, E>, entries: seq<(E, E)>, hs: seq<H>, past: nat): (r: seq<H>)
    requires |entries| == past + |hs|
    ensures |r| == |hs|
  {
    seq(|hs|, i requires 0 <= i < |hs| => layer.attend(hs[i], past + i, FirstEntries(entries, past + i + 1)))
  }

  lemma VisibleAreFirst<E>(entries: seq<(E, E)>, rows: nat, past: nat, i: nat)
    requires |entries| == past + rows && i < rows
    ensures VisibleEntries(entries, MakeCausalMaskMatrix(rows, past), i, rows) == FirstEntries(entries, past + i + 1)
  {
    forall j: nat | j < |entries| ensures Visible(MakeCausalMaskMatrix(rows, past), i, j) <==> j <= past + i {
      VisibleIsCausal(rows, past, i, j);
    }
  }

  lemma MaskMakesLayerCausal<H, E>(layer: Layer<H, E>, entries: seq<(E, E)>, hs: seq<H>, past: nat)
    requires |entries| == past + |hs|
    ensures LayerOutput(layer, entries, MakeCausalMaskMatrix(|hs|, past), hs, past)
              == CausalOutput(layer, entries, hs, past)
  {
    forall i | 0 <= i < |hs|
      ensures VisibleEntries(entries, MakeCausalMaskMatrix(|hs|, past), i, |hs|) == FirstEntries(entries, past + i + 1)
    {
      VisibleAreFirst(entries, |hs|, past, i);
    }
  }

  /** A layer over all positions at once is the layer over the first ones, then over the rest. */
  lemma CausalOutputSplits<H, E>(layer: Layer<H, E>, entries: seq<(E, E)>, hsA: seq<H>, hsB: seq<H>)
    requires |entries| == |hsA| + |hsB|
    ensures CausalOutput(layer, entries, hsA + hsB, 0)
         == CausalOutput(layer, entries[..|hsA|], hsA, 0) + CausalOutput(layer, entries, hsB, |hsA|)
  {
    forall n: nat | n <= |hsA| ensures FirstEntries(entries, n) == FirstEntries(entries[..|hsA|], n) {
    }
  }

  // ----- all layers

  function RunLayers<H, E>(layers: seq<Layer<H, E>>, caches: seq<KvCache<E>>, bias: Option<Matrix<Bias>>, hs: seq<H>,
                           offset: nat, past: nat): (r: (seq<H>, seq<KvCache<E>>))
    requires |caches| == |layers| && AllReady(caches, past) && Fits(bias, |hs|, past + |hs|)
    ensures |r.0| == |hs| && |r.1| == |layers| && AllReady(r.1, past + |hs|)
  {
    if layers == [] then (hs, [])
    else
      assert Ready(caches[0], past);
      var cache := LayerCache(layers[0], caches[0], hs, offset, past);
      var out := LayerOutput(layers[0], Entries(cache), bias, hs, offset);
      assert AllReady(caches[1..], past);
      var rest := RunLayers(layers[1..], caches[1..], bias, out, offset, past);
      ReadyOneMore(cache, rest.1, past + |hs|);
      (rest.0, [cache] + rest.1)
  }

  lemma ReadyOneMore<E>(cache: KvCache<E>, rest: seq<KvCache<E>>, len: nat)
    requires Ready(cache, len) && AllReady(rest, len)
    ensures AllReady([cache] + rest, len)
  {
    hide Ready;
  }

  /** One forward pass. The mask is made from the length of the first layer's cache, the positions from the offset. */
  function Forward<H, E>(model: Transformer<H, E>, caches: seq<KvCache<E>>, toks: Tokens,
                         offset: nat): (r: (seq<H>, seq<KvCache<E>>))
    requires |caches| == |model.layers| > 0 && AllReady(caches, caches[0].k.currentSeqLen)
    ensures |r.0| == |toks| && |r.1| == |model.layers| && AllReady(r.1, caches[0].k.currentSeqLen + |toks|)
  {
    var past := caches[0].k.currentSeqLen;
    RunLayers(model.layers, caches, MakeCausalMaskMatrix(|toks|, past), Embedded(model, toks, offset), offset, past)
  }

  function Embedded<H, E>(model: Transformer<H, E>, toks: Tokens, offset: nat): (r: seq<H>)
    ensures |r| == |toks|
  {
    seq(|toks|, i requires 0 <= i < |toks| => model.embed(toks[i], offset + i))
  }

  function EmptyCaches<E>(layers: nat): (r: seq<KvCache<E>>)
    ensures |r| == layers && AllReady(r, 0)
  {
    seq(layers, _ => KvCache(SingleCache(None, 0), SingleCache(None, 0)))
  }

  /** All of the tokens in one pass, without any cache. */
  function Scratch<H, E>(model: Transformer<H, E>, toks: Tokens): (r: (seq<H>, seq<KvCache<E>>))
    requires |model.layers| > 0
    ensures |r.0| == |toks| && |r.1| == |model.layers| && AllReady(r.1, |toks|)
  {
    Forward(model, EmptyCaches(|model.layers|), toks, 0)
  }

  /** One layer, over all positions at once and in two parts. */
  lemma LayerSplits<H, E>(layer: Layer<H, E>, all: KvCache<E>, a: KvCache<E>, b: KvCache<E>, hsA: seq<H>, hsB: seq<H>)
    requires Ready(all, 0) && Ready(a, 0) && Ready(b, |hsA|)
    requires Entries(b) == Entries(LayerCache(layer, a, hsA, 0, 0))
    ensures Entries(LayerCache(layer, all, hsA + hsB, 0, 0)) == Entries(LayerCache(layer, b, hsB, |hsA|, |hsA|))
    ensures Entries(LayerCache(layer, all, hsA + hsB, 0, 0))[..|hsA|] == Entries(b)
    ensures LayerOutput(layer, Entries(LayerCache(layer, all, hsA + hsB, 0, 0)), MakeCausalMaskMatrix(|hsA + hsB|, 0),
                        hsA + hsB, 0)
         == LayerOutput(layer, Entries(LayerCache(layer, a, hsA, 0, 0)), MakeCausalMaskMatrix(|hsA|, 0), hsA, 0)
          + LayerOutput(layer, Entries(LayerCache(layer, b, hsB, |hsA|, |hsA|)), MakeCausalMaskMatrix(|hsB|, |hsA|),
                        hsB, |hsA|)
  {
    hide LayerCache, LayerOutput, CausalOutput, MakeCausalMaskMatrix, Entries;
    var entries, entriesA := Entries(LayerCache(layer, all, hsA + hsB, 0, 0)), Entries(LayerCache(layer, a, hsA, 0, 0));
    assert NewEntries(layer, hsA + hsB, 0) == NewEntries(layer, hsA, 0) + NewEntries(layer, hsB, |hsA|);
    assert entriesA == NewEntries(layer, hsA, 0);
    assert entries == NewEntries(layer, hsA + hsB, 0);
    MaskMakesLayerCausal(layer, entries, hsA + hsB, 0);
    MaskMakesLayerCausal(layer, entriesA, hsA, 0);
    MaskMakesLayerCausal(layer, entries, hsB, |hsA|);
    CausalOutputSplits(layer, entries, hsA, hsB);
  }

  /** A run of new positions behind past ones, with the mask made for it. */
  function CausalRun<H, E>(layers: seq<Layer<H, E>>, caches: seq<KvCache<E>>, hs: seq<H>,
                           past: nat): (r: (seq<H>, seq<KvCache<E>>))
    requires |caches| == |layers| && AllReady(caches, past)
    ensures |r.0| == |hs| && |r.1| == |layers| && AllReady(r.1, past + |hs|)
  {
    RunLayers(layers, caches, MakeCausalMaskMatrix(|hs|, past), hs, past, past)
  }

  lemma CausalRunStep<H, E>(layers: seq<Layer<H, E>>, caches: seq<KvCache<E>>, hs: seq<H>, past: nat)
    requires |caches| == |layers| > 0 && AllReady(caches, past)
    ensures Ready(caches[0], past) && AllReady(caches[1..], past)
    ensures var cache := LayerCache(layers[0], caches[0], hs, past, past);
            var out := LayerOutput(layers[0], Entries(cache), MakeCausalMaskMatrix(|hs|, past), hs, past);
            var rest := CausalRun(layers[1..], caches[1..], out, past);
            CausalRun(layers, caches, hs, past).0 == rest.0 &&
            AllEntries(CausalRun(layers, caches, hs, past).1) == [Entries(cache)] + AllEntries(rest.1)
  {
    hide LayerCache, LayerOutput, MakeCausalMaskMatrix, Entries;
    var cache := LayerCache(layers[0], caches[0], hs, past, past);
    var out := LayerOutput(layers[0], Entries(cache), MakeCausalMaskMatrix(|hs|, past), hs, past);
    var rest := CausalRun(layers[1..], caches[1..], out, past);
    assert ([cache] + rest.1)[1..] == rest.1;
  }

  /** For any number of layers: if the caches `b` hold what running `hsA` wrote, then running `hsB` on top of
      them completes a run over both, outputs and entries. */
  lemma {:induction false} CausalRunSplits<H, E>(layers: seq<Layer<H, E>>, all: seq<KvCache<E>>, a: seq<KvCache<E>>,
                                                 b: seq<KvCache<E>>, hsA: seq<H>, hsB: seq<H>)
    requires |all| == |a| == |b| == |layers| && AllReady(all, 0) && AllReady(a, 0) && AllReady(b, |hsA|)
    requires AllEntries(b) == AllEntries(CausalRun(layers, a, hsA, 0).1)
    ensures CausalRun(layers, all, hsA + hsB, 0).0
              == CausalRun(layers, a, hsA, 0).0 + CausalRun(layers, b, hsB, |hsA|).0
    ensures AllEntries(CausalRun(layers, all, hsA + hsB, 0).1) == AllEntries(CausalRun(layers, b, hsB, |hsA|).1)
    ensures Cut(AllEntries(CausalRun(layers, all, hsA + hsB, 0).1), |hsA|) == AllEntries(b)
    decreases |layers|
  {
    if layers != [] {
      var layer, n := layers[0], |hsA|;
      CausalRunStep(layers, all, hsA + hsB, 0);
      CausalRunStep(layers, a, hsA, 0);
      CausalRunStep(layers, b, hsB, n);
      assert AllEntries(b)[0] == Entries(b[0]) && AllEntries(b)[1..] == AllEntries(b[1..]);
      LayerSplits(layer, all[0], a[0], b[0], hsA, hsB);
      var outA := LayerOutput(layer, Entries(LayerCache(layer, a[0], hsA, 0, 0)), MakeCausalMaskMatrix(n, 0), hsA, 0);
      var outB :=
        LayerOutput(layer, Entries(LayerCache(layer, b[0], hsB, n, n)), MakeCausalMaskMatrix(|hsB|, n), hsB, n);
      CausalRunSplits(layers[1..], all[1..], a[1..], b[1..], outA, outB);
    }
  }

  /** What layers compute without any mask or cache: each position from the keys and values of itself and of those
      before. */
  ghost function Reference<H, E>(layers: seq<Layer<H, E>>, hs: seq<H>): (r: seq<H>)
    ensures |r| == |hs|
  {
    if layers == [] then hs
    else
      var layer := layers[0];
      Reference(layers[1..],
                seq(|hs|, i requires 0 <= i < |hs| => layer.attend(hs[i], i, KeysAndValues(layer, hs[..i + 1]))))
  }

  ghost function KeysAndValues<H, E>(layer: Layer<H, E>, hs: seq<H>): map<nat, (E, E)> {
    map j: nat | 0 <= j < |hs| :: (layer.key(hs[j], j), layer.value(hs[j], j))
  }

  lemma {:induction false} CausalRunIsReference<H, E>(layers: seq<Layer<H, E>>, caches: seq<KvCache<E>>, hs: seq<H>)
    requires |caches| == |layers| && AllReady(caches, 0)
    ensures CausalRun(layers, caches, hs, 0).0 == Reference(layers, hs)
    decreases |layers|
  {
    if layers != [] {
      var layer := layers[0];
      CausalRunStep(layers, caches, hs, 0);
      var entries := Entries(LayerCache(layer, caches[0], hs, 0, 0));
      assert Entries(caches[0]) == [];
      LayerIsReference(layer, entries, hs);
      MaskMakesLayerCausal(layer, entries, hs, 0);
      CausalRunIsReference(layers[1..], caches[1..], CausalOutput(layer, entries, hs, 0));
    }
  }

  lemma LayerIsReference<H, E>(layer: Layer<H, E>, entries: seq<(E, E)>, hs: seq<H>)
    requires entries == NewEntries(layer, hs, 0)
    ensures CausalOutput(layer, entries, hs, 0)
         == seq(|hs|, i requires 0 <= i < |hs| => layer.attend(hs[i], i, KeysAndValues(layer, hs[..i + 1])))
  {
    forall i {:trigger hs[i]} | 0 <= i < |hs|
      ensures FirstEntries(entries, i + 1) == KeysAndValues(layer, hs[..i + 1])
    {
    }
  }

  /** A run from scratch is what the layers compute, one on top of the other, for any number of them. */
  lemma ScratchIsReference<H, E>(model: Transformer<H, E>, toks: Tokens)
    requires |model.layers| > 0
    ensures Scratch(model, toks).0
         == Reference(model.layers, seq(|toks|, i requires 0 <= i < |toks| => model.embed(toks[i], i)))
  {
    hide Forward, CausalRun, Reference;
    var empty: seq<KvCache<E>> := EmptyCaches(|model.layers|);
    ForwardIsCausalRun(model, empty, toks, 0);
    CausalRunIsReference(model.layers, empty, Embedded(model, toks, 0));
    assert Embedded(model, toks, 0) == seq(|toks|, i requires 0 <= i < |toks| => model.embed(toks[i], i));
  }

  // ----- caches that agree with the computation they stand for

  /** The cache holds, in every layer, exactly the entries that running `toks` from scratch writes. */
  ghost predicate Agrees<H, E>(model: Transformer<H, E>, caches: seq<KvCache<E>>, toks: Tokens)
    requires |model.layers| > 0
  {
    |caches| == |model.layers| && AllReady(caches, |toks|) && AllEntries(caches) == AllEntries(Scratch(model, toks).1)
  }

  /** Running the rest of a text on a cache that agrees with its beginning equals running all of it from scratch. */
  lemma ReuseEqualsScratch<H, E>(model: Transformer<H, E>, caches: seq<KvCache<E>>, first: Tokens, rest: Tokens)
    requires |model.layers| > 0 && Agrees(model, caches, first)
    ensures Scratch(model, first + rest).0 == Scratch(model, first).0 + Forward(model, caches, rest, |first|).0
    ensures Agrees(model, Forward(model, caches, rest, |first|).1, first + rest)
    ensures Cut(AllEntries(Scratch(model, first + rest).1), |first|) == AllEntries(caches)
  {
    hide Forward, CausalRun, AllEntries, Cut, Embedded, EmptyCaches;
    var hsA, hsB := Embedded(model, first, 0), Embedded(model, rest, |first|);
    var empty := EmptyCaches(|model.layers|);
    EmbeddedSplits(model, first, rest);
    ForwardIsCausalRun(model, empty, first + rest, 0);
    ForwardIsCausalRun(model, empty, first, 0);
    ForwardIsCausalRun(model, caches, rest, |first|);
    CausalRunSplits(model.layers, empty, empty, caches, hsA, hsB);
  }

  lemma EmbeddedSplits<H, E>(model: Transformer<H, E>, first: Tokens, rest: Tokens)
    ensures Embedded(model, first + rest, 0) == Embedded(model, first, 0) + Embedded(model, rest, |first|)
  {
  }

  lemma ForwardIsCausalRun<H, E>(model: Transformer<H, E>, caches: seq<KvCache<E>>, toks: Tokens, past: nat)
    requires |caches| == |model.layers| > 0 && AllReady(caches, past)
    ensures caches[0].k.currentSeqLen == past
    ensures Forward(model, caches, toks, past) == CausalRun(model.layers, caches, Embedded(model, toks, past), past)
  {
    hide RunLayers, MakeCausalMaskMatrix;
    assert Ready(caches[0], past);
  }

  lemma AgreesIsReady<H, E>(model: Transformer<H, E>, caches: seq<KvCache<E>>, toks: Tokens)
    requires |model.layers| > 0 && Agrees(model, caches, toks)
    ensures |caches| == |model.layers| && AllReady(caches, |toks|) && caches[0].k.currentSeqLen == |toks|
  {
  }

  lemma EmptyAgrees<H, E>(model: Transformer<H, E>)
    requires |model.layers| > 0
    ensures Agrees(model, EmptyCaches(|model.layers|), [])
  {
  }

  predicate Written<E>(caches: seq<KvCache<E>>) {
    forall i :: 0 <= i < |caches| ==> caches[i].k.allData.Some?
  }

  lemma {:induction false} RunLayersWrites<H, E>(layers: seq<Layer<H, E>>, caches: seq<KvCache<E>>,
                                                 bias: Option<Matrix<Bias>>, hs: seq<H>, offset: nat, past: nat)
    requires |caches| == |layers| && AllReady(caches, past) && Fits(bias, |hs|, past + |hs|)
    ensures Written(RunLayers(layers, caches, bias, hs, offset, past).1)
    decreases |layers|
  {
    hide LayerCache, LayerOutput, Entries;
    if layers != [] {
      assert Ready(caches[0], past);
      var cache := LayerCache(layers[0], caches[0], hs, offset, past);
      assert AllReady(caches[1..], past);
      RunLayersWrites(layers[1..], caches[1..], bias, LayerOutput(layers[0], Entries(cache), bias, hs, offset), offset,
                      past);
    }
  }

  /** Shortening a cache makes it agree with the shorter text. */
  lemma ShortenedAgrees<H, E>(model: Transformer<H, E>, caches: seq<KvCache<E>>, shortened: seq<KvCache<E>>,
                              toks: Tokens, len: nat)
    requires |model.layers| > 0 && Agrees(model, caches, toks) && len <= |toks|
    requires AllReady(shortened, len) && AllEntries(shortened) == Cut(AllEntries(caches), len)
    ensures Agrees(model, shortened, toks[..len])
  {
    hide Scratch, AllEntries, Cut;
    assert toks[..len] + toks[len..] == toks;
    ReuseEqualsScratch(model, Scratch(model, toks[..len]).1, toks[..len], toks[len..]);
  }

  // ----- the invariant of the prefix cache

  ghost predicate AllPresent<E>(cache: LayerCaches<E>) {
    forall i :: 0 <= i < |cache| ==> cache[i].Some? && cache[i].value.k.allData.Some?
  }

  function Unwrapped<E>(cache: LayerCaches<E>): seq<KvCache<E>>
    requires forall i :: 0 <= i < |cache| ==> cache[i].Some?
  {
    seq(|cache|, i requires 0 <= i < |cache| => cache[i].value)
  }

  function Wrapped<E>(caches: seq<KvCache<E>>): LayerCaches<E> {
    seq(|caches|, i requires 0 <= i < |caches| => Some(caches[i]))
  }

  /** A stored cache agrees with its key, or with its key without the last token: the token generated last
      has not been run when the sequence is stored. */
  ghost predicate StoredFor<H, E>(model: Transformer<H, E>, key: Tokens, cache: LayerCaches<E>)
    requires |model.layers| > 0
  {
    AllPresent(cache) &&
    (Agrees(model, Unwrapped(cache), key) || (key != [] && Agrees(model, Unwrapped(cache), key[..|key| - 1])))
  }

  ghost predicate Faithful<H, E>(model: Transformer<H, E>, caches: map<Tokens, LayerCaches<E>>)
    requires |model.layers| > 0
  {
    forall k <- caches.Keys :: StoredFor(model, k, caches[k])
  }

  lemma ShortenedLayerEntries<E>(layer: Option<KvCache<E>>, device: Device, from: nat, len: nat)
    requires layer.Some? && layer.value.k.allData.Some? && Ready(layer.value, from) && len <= from
    ensures var shortened := ShortenedLayer(MovedLayer(layer, device), len);
            shortened.Some? && shortened.value.k.allData.Some? && Ready(shortened.value, len) &&
            Entries(shortened.value) == Entries(layer.value)[..len]
  {
  }

  lemma ShortenedEntries<E>(cache: LayerCaches<E>, device: Device, from: nat, len: nat)
    requires AllPresent(cache) && AllReady(Unwrapped(cache), from) && len <= from
    ensures var shortened := Shortened(Moved(cache, device), len);
            AllPresent(shortened) && AllReady(Unwrapped(shortened), len) &&
            AllEntries(Unwrapped(shortened)) == Cut(AllEntries(Unwrapped(cache)), len)
  {
    var shortened := Shortened(Moved(cache, device), len);
    forall i | 0 <= i < |cache|
      ensures shortened[i].Some? && shortened[i].value.k.allData.Some? && Ready(shortened[i].value, len)
      ensures |Entries(cache[i].value)| == from && Entries(shortened[i].value) == Entries(cache[i].value)[..len]
    {
      assert Ready(Unwrapped(cache)[i], from);
      ShortenedLayerEntries(cache[i], device, from, len);
    }
  }

  /** What a search hands out agrees with the part of the request it covers; this is why the match is cut
      one short of the common prefix. */
  lemma SearchResultAgrees<H, E(!new)>(model: Transformer<H, E>, caches: map<Tokens, LayerCaches<E>>, device: Device,
                                       noPrefixCache: bool, toks: Tokens, r: Option<MatchingCache<E>>)
    requires |model.layers| > 0
    ensures Faithful(model, caches) && IsSearchResult(caches, device, noPrefixCache, toks, false, r) && r.Some? ==>
              0 < r.value.offset < |toks| && r.value.toks == toks[r.value.offset..] &&
              AllPresent(r.value.normal) && Agrees(model, Unwrapped(r.value.normal), toks[..r.value.offset])
  {
    hide Agrees, AllPresent, StoredFor, Shortened, Moved, Unwrapped;
    if Faithful(model, caches) && IsSearchResult(caches, device, noPrefixCache, toks, false, r) && r.Some? {
      var found := r.value;
      var k :| && k in caches.Keys && SharedPrefix(toks, k) >= 2 && found.offset == SharedPrefix(toks, k) - 1
               && found.normal == Shortened(Moved(caches[k], device), found.offset);
      MatchAgrees(model, k, caches[k], device, toks);
    }
  }

  lemma MatchAgrees<H, E>(model: Transformer<H, E>, key: Tokens, stored: LayerCaches<E>, device: Device, toks: Tokens)
    requires |model.layers| > 0 && StoredFor(model, key, stored) && SharedPrefix(toks, key) >= 1
    ensures var offset := SharedPrefix(toks, key) - 1;
            var normal := Shortened(Moved(stored, device), offset);
            AllPresent(normal) && Agrees(model, Unwrapped(normal), toks[..offset])
  {
    hide Agrees, Shortened, Moved, Unwrapped, AllEntries, Scratch;
    var shared := SharedPrefix(toks, key);
    var covered := if Agrees(model, Unwrapped(stored), key) then key else key[..|key| - 1];
    AgreesIsReady(model, Unwrapped(stored), covered);
    ShortenedEntries(stored, device, |covered|, shared - 1);
    ShortenedAgrees(model, Unwrapped(stored), Unwrapped(Shortened(Moved(stored, device), shared - 1)), covered,
                    shared - 1);
    assert covered[..shared - 1] == key[..shared][..shared - 1] == toks[..shared][..shared - 1] == toks[..shared - 1];
  }

  lemma RelocationKeepsFaithful<H, E>(model: Transformer<H, E>, before: map<Tokens, LayerCaches<E>>,
                                      after: map<Tokens, LayerCaches<E>>)
    requires |model.layers| > 0 && Faithful(model, before) && Relocated(before, after)
    ensures Faithful(model, after)
  {
    forall k <- after.Keys ensures StoredFor(model, k, after[k]) {
      assert StoredFor(model, k, before[k]);
      SameContentAgrees(model, before[k], after[k], k);
      if k != [] {
        SameContentAgrees(model, before[k], after[k], k[..|k| - 1]);
      }
    }
  }

  lemma SameContentAgrees<H, E>(model: Transformer<H, E>, before: LayerCaches<E>, after: LayerCaches<E>, toks: Tokens)
    requires |model.layers| > 0 && AllPresent(before) && SameContent(before, after)
    ensures AllPresent(after)
    ensures Agrees(model, Unwrapped(before), toks) ==> Agrees(model, Unwrapped(after), toks)
  {
    hide Agrees, Entries, Ready, Moved, SameContent, MovedLayer;
    forall i | 0 <= i < |before|
      ensures |after| == |before| && after[i].Some? && after[i].value.k.allData.Some?
      ensures Ready(before[i].value, |toks|) ==> Ready(after[i].value, |toks|)
      ensures Entries(after[i].value) == Entries(before[i].value)
    {
      SameContentAt(before, after, i);
      SameLayerAgrees(before[i].value, after[i].value, |toks|);
    }
    SameContentLength(before, after);
    AgreesAlike(model, Unwrapped(before), Unwrapped(after), toks);
  }

  lemma SameContentLength<E>(before: LayerCaches<E>, after: LayerCaches<E>)
    requires SameContent(before, after)
    ensures |before| == |after|
  {
    assert |before| == |Moved(before, Cpu)|;
  }

  lemma SameContentAt<E>(before: LayerCaches<E>, after: LayerCaches<E>, i: nat)
    requires SameContent(before, after) && i < |before| && before[i].Some?
    ensures |before| == |after| && after[i].Some?
    ensures MovedLayer(Some(before[i].value), Cpu) == MovedLayer(Some(after[i].value), Cpu)
  {
    SameContentLength(before, after);
    assert MovedLayer(before[i], Cpu) == Moved(before, Cpu)[i] == MovedLayer(after[i], Cpu);
  }

  lemma AgreesAlike<H, E>(model: Transformer<H, E>, a: seq<KvCache<E>>, b: seq<KvCache<E>>, toks: Tokens)
    requires |model.layers| > 0 && |a| == |b|
    requires forall i :: 0 <= i < |a| ==> (Ready(a[i], |toks|) ==> Ready(b[i], |toks|))
    requires forall i :: 0 <= i < |a| ==> Entries(b[i]) == Entries(a[i])
    ensures Agrees(model, a, toks) ==> Agrees(model, b, toks)
  {
    hide Scratch, Entries, Ready;
    assert AllEntries(a) == AllEntries(b);
  }

  lemma SameLayerAgrees<E>(a: KvCache<E>, b: KvCache<E>, len: nat)
    requires MovedLayer(Some(a), Cpu) == MovedLayer(Some(b), Cpu)
    ensures a.k.allData.Some? <==> b.k.allData.Some?
    ensures Ready(a, len) ==> Ready(b, len)
    ensures Entries(b) == Entries(a)
  {
  }

  lemma AllPresentHasData<E>(cache: LayerCaches<E>)
    requires AllPresent(cache)
    ensures HasData(cache)
  {
  }

  // ----- serving requests

  datatype Request = Request(prompt: Tokens, generated: Tokens)

  /** The output rows that sampling looks at, computed without any cache: the row of the last prompt token and
      the row of every generated token but the last. */
  ghost function SampledRows<H, E>(model: Transformer<H, E>, request: Request): seq<H>
    requires |model.layers| > 0 && request.prompt != [] && request.generated != []
  {
    Scratch(model, request.prompt + request.generated[..|request.generated| - 1]).0[|request.prompt| - 1..]
  }

  /** Runs the part of a prompt that the best match does not cover; returns the row of its last token. */
  method Prefill<H, E(!new)>(manager: PrefixCacheManager<E>, model: Transformer<H, E>, prompt: Tokens)
    returns (row: H, caches: seq<KvCache<E>>)
    requires |model.layers| > 0 && Faithful(model, manager.caches) && prompt != []
    ensures Agrees(model, caches, prompt) && Written(caches)
    ensures row == Scratch(model, prompt).0[|prompt| - 1]
  {
    hide Agrees, Scratch, Forward, EmptyCaches, StoredFor, Moved, Shortened;
    var found := manager.SearchForMatchingCache(prompt, false);
    caches := EmptyCaches(|model.layers|);
    var toks, offset := prompt, 0;
    if found.Some? {
      SearchResultAgrees(model, manager.caches, manager.device, manager.noPrefixCache, prompt, found);
      caches, toks, offset := Unwrapped(found.value.normal), found.value.toks, found.value.offset;
    } else {
      EmptyAgrees(model);
    }
    ghost var first := prompt[..offset];
    assert prompt == first + toks;
    AgreesIsReady(model, caches, first);
    ReuseEqualsScratch(model, caches, first, toks);
    ForwardWrites(model, caches, toks, offset);
    var (outputs, extended) := Forward(model, caches, toks, offset);
    row, caches := outputs[|outputs| - 1], extended;
  }

  lemma ForwardWrites<H, E>(model: Transformer<H, E>, caches: seq<KvCache<E>>, toks: Tokens, offset: nat)
    requires |caches| == |model.layers| > 0 && AllReady(caches, caches[0].k.currentSeqLen)
    ensures Written(Forward(model, caches, toks, offset).1)
  {
    var past := caches[0].k.currentSeqLen;
    RunLayersWrites(model.layers, caches, MakeCausalMaskMatrix(|toks|, past), Embedded(model, toks, offset), offset,
                    past);
  }

  /** Runs one generated token on the cache of everything before it. */
  method Decode<H, E>(model: Transformer<H, E>, caches: seq<KvCache<E>>, ghost sofar: Tokens, tok: Token, position: nat)
    returns (row: H, longer: seq<KvCache<E>>)
    requires |model.layers| > 0 && Agrees(model, caches, sofar) && position == |sofar|
    ensures Agrees(model, longer, sofar + [tok]) && Written(longer)
    ensures Scratch(model, sofar + [tok]).0 == Scratch(model, sofar).0 + [row]
  {
    hide Agrees, Scratch, Forward;
    AgreesIsReady(model, caches, sofar);
    ReuseEqualsScratch(model, caches, sofar, [tok]);
    ForwardWrites(model, caches, [tok], position);
    var (outputs, extended) := Forward(model, caches, [tok], position);
    assert outputs == [outputs[0]];
    row, longer := outputs[0], extended;
  }

  lemma StoredWithoutLast<H, E>(model: Transformer<H, E>, caches: seq<KvCache<E>>, key: Tokens)
    requires |model.layers| > 0 && key != [] && Agrees(model, caches, key[..|key| - 1]) && Written(caches)
    ensures StoredFor(model, key, Wrapped(caches))
  {
    assert Unwrapped(Wrapped(caches)) == caches;
  }

  /** Serves one request: search, run what the match does not cover, run the generated tokens one by one, store
      and evict. Whatever is stored, the rows sampled from are those of a run from scratch. */
  method ServeRequest<H, E(!new)>(manager: PrefixCacheManager<E>, model: Transformer<H, E>, request: Request)
    returns (rows: seq<H>)
    requires |model.layers| > 0 && Faithful(model, manager.caches)
    requires request.prompt != [] && request.generated != []
    modifies manager
    ensures Faithful(model, manager.caches)
    ensures rows == SampledRows(model, request)
  {
    hide Agrees, Scratch, AllPresent;
    var prompt, generated := request.prompt, request.generated;
    var first, caches := Prefill(manager, model, prompt);
    rows := [first];
    assert prompt + generated[..0] == prompt;
    for i := 0 to |generated| - 1
      invariant manager.caches == old(manager.caches)
      invariant Agrees(model, caches, prompt + generated[..i]) && Written(caches)
      invariant rows == Scratch(model, prompt + generated[..i]).0[|prompt| - 1..]
    {
      assert (prompt + generated[..i]) + [generated[i]] == prompt + generated[..i + 1];
      var row, longer := Decode(model, caches, prompt + generated[..i], generated[i], |prompt| + i);
      caches, rows := longer, rows + [row];
    }
    var key := prompt + generated;
    assert key[..|key| - 1] == prompt + generated[..|generated| - 1];
    StoredWithoutLast(model, caches, key);
    StoreAndEvict(manager, model, key, Wrapped(caches));
  }

  /** Storing what belongs to a key, and evicting, keep the prefix cache faithful. */
  method StoreAndEvict<H, E(!new)>(manager: PrefixCacheManager<E>, ghost model: Transformer<H, E>, key: Tokens,
                                   cache: LayerCaches<E>)
    requires |model.layers| > 0 && Faithful(model, manager.caches) && StoredFor(model, key, cache)
    modifies manager
    ensures Faithful(model, manager.caches)
    ensures !manager.noPrefixCache ==> manager.caches.Keys == old(manager.caches.Keys) + {key}
  {
    hide Agrees, Scratch, AllPresent;
    manager.AddSequence(key, cache);
    forall k <- manager.caches.Keys ensures HasData(manager.caches[k]) {
      AllPresentHasData(manager.caches[k]);
    }
    ghost var stored := manager.caches;
    var _ := manager.EvictToCpu();
    RelocationKeepsFaithful(model, stored, manager.caches);
  }

  /** Over any sequence of requests, no request ever notices the cache. */
  method ServeAll<H, E(!new)>(manager: PrefixCacheManager<E>, model: Transformer<H, E>, requests: seq<Request>)
    returns (rows: seq<seq<H>>)
    requires |model.layers| > 0 && manager.caches == map[]
    requires forall r <- requests :: r.prompt != [] && r.generated != []
    modifies manager
    ensures |rows| == |requests| && forall i :: 0 <= i < |requests| ==> rows[i] == SampledRows(model, requests[i])
  {
    hide SampledRows, StoredFor;
    rows := [];
    for i := 0 to |requests|
      invariant Faithful(model, manager.caches)
      invariant |rows| == i && forall j :: 0 <= j < i ==> rows[j] == SampledRows(model, requests[j])
    {
      var r := ServeRequest(manager, model, requests[i]);
      rows := rows + [r];
    }
  }
}
