/** Speculative decoding: a draft of some tokens is run by the target model in one pass, and both caches are cut back to
    what is accepted. */
module Speculative {
  import opened Common
  import opened CausalMasker
  import opened PrefixCacher
  import opened PrefixReuse

  /** How many of the samples are accepted: those that equal the draft, and the first that does not. */
  function AcceptedCount(samples: Tokens, draft: Tokens): (n: nat)
    requires |samples| == |draft|
    ensures n <= |draft| && (draft != [] ==> n > 0)
    ensures n > 0 ==> samples[..n - 1] == draft[..n - 1]
    ensures n < |draft| ==> n > 0 && samples[n - 1] != draft[n - 1]
  {
    if draft == [] then 0
    else if samples[0] != draft[0] then 1
    else
      var n := 1 + AcceptedCount(samples[1..], draft[1..]);
      assert n > 1 ==> samples[..n - 1] == [samples[0]] + samples[1..][..n - 2];
      assert n > 1 ==> draft[..n - 1] == [draft[0]] + draft[1..][..n - 2];
      n
  }

  method AcceptSamples(samples: Tokens, draft: Tokens) returns (accepted: Tokens)
    requires |samples| == |draft|
    ensures accepted == samples[..AcceptedCount(samples, draft)]
  {
    accepted := [];
    for i := 0 to |samples|
      invariant accepted == samples[..i]
      invariant AcceptedCount(samples, draft) == i + AcceptedCount(samples[i..], draft[i..])
    {
      assert samples[i..][1..] == samples[i + 1..] && draft[i..][1..] == draft[i + 1..];
      accepted := accepted + [samples[i]];
      if draft[i] != samples[i] {
        break;
      }
    }
  }

  /** Sets back the length of every cache. */
  method NarrowCaches<E>(caches: seq<KvCache<E>>, ghost len: nat, cut: nat) returns (narrowed: seq<KvCache<E>>)
    requires AllReady(caches, len) && cut <= len
    ensures AllReady(narrowed, len - cut) && AllEntries(narrowed) == Cut(AllEntries(caches), len - cut)
  {
    hide AllEntries, Cut, Entries, Ready;
    narrowed := [];
    for i := 0 to |caches|
      invariant |narrowed| == i
      invariant forall j :: 0 <= j < i ==>
                  Ready(narrowed[j], len - cut) && Entries(narrowed[j]) == Entries(caches[j])[..len - cut]
    {
      var cache := caches[i];
      assert Ready(cache, len);
      LengthOfReady(cache, len);
      var shorter := cache.k.currentSeqLen - cut;
      var back := KvCache(cache.k.(currentSeqLen := shorter), cache.v.(currentSeqLen := shorter));
      NarrowedEntries(cache, back, len, len - cut);
      narrowed := narrowed + [back];
    }
    forall i | 0 <= i < |caches| ensures |Entries(caches[i])| == len {
      assert Ready(caches[i], len);
    }
    assert AllEntries(narrowed) == Cut(AllEntries(caches), len - cut);
  }

  lemma LengthOfReady<E>(cache: KvCache<E>, len: nat)
    requires Ready(cache, len)
    ensures cache.k.currentSeqLen == len && |Entries(cache)| == len
  {
  }

  lemma NarrowedEntries<E>(cache: KvCache<E>, back: KvCache<E>, len: nat, shorter: nat)
    requires Ready(cache, len) && shorter <= len
    requires back == KvCache(cache.k.(currentSeqLen := shorter), cache.v.(currentSeqLen := shorter))
    ensures Ready(back, shorter) && Entries(back) == Entries(cache)[..shorter]
  {
    assert Current(back.k) == Current(cache.k)[..shorter];
    assert Current(back.v) == Current(cache.v)[..shorter];
  }

  /** The tokens that have been run when the next one is to be sampled: all but the last. */
  function ButLast(toks: Tokens): Tokens
    requires toks != []
  {
    toks[..|toks| - 1]
  }

  /** Both models have run the tokens and the draft but for its last token. Cut back by what is not accepted, their
      caches are those of the sequence with the accepted tokens, less its last. */
  lemma CutCacheAgrees<H, E>(model: Transformer<H, E>, caches: seq<KvCache<E>>, narrowed: seq<KvCache<E>>, toks: Tokens,
                             draft: Tokens, samples: Tokens, len: nat)
    requires |model.layers| > 0 && draft != [] && |samples| == |draft| && Agrees(model, caches, toks + ButLast(draft))
    requires len == |toks| + AcceptedCount(samples, draft) - 1 && AllReady(narrowed, len)
    requires AllEntries(narrowed) == Cut(AllEntries(caches), len)
    ensures Agrees(model, narrowed, ButLast(toks + samples[..AcceptedCount(samples, draft)]))
  {
    AcceptedText(toks, draft, samples, len);
    hide *;
    ShortenedAgrees(model, caches, narrowed, toks + ButLast(draft), len);
  }

  lemma AcceptedText(toks: Tokens, draft: Tokens, samples: Tokens, len: nat)
    requires draft != [] && |samples| == |draft| && len == |toks| + AcceptedCount(samples, draft) - 1
    ensures len <= |toks + ButLast(draft)| && AcceptedCount(samples, draft) > 0
    ensures (toks + ButLast(draft))[..len] == ButLast(toks + samples[..AcceptedCount(samples, draft)])
  {
    hide AcceptedCount;
    var n := AcceptedCount(samples, draft);
    assert (toks + ButLast(draft))[..len] == toks + draft[..n - 1];
    assert ButLast(toks + samples[..n]) == toks + samples[..n - 1];
  }

  lemma PrefillText(toks: Tokens, draft: Tokens, isPrompt: bool)
    requires toks != [] && draft != []
    ensures (if isPrompt then [] else ButLast(toks))
              + ((if isPrompt then toks else [toks[|toks| - 1]]) + draft[..|draft| - 1])
         == toks + ButLast(draft)
  {
  }

  /** One step of the target model, after the prompt or behind a cache of all tokens but the last: it yields the rows
      from which a run from scratch samples at the draft's positions, and leaves the cache for the next step. */
  method TargetStep<H, E>(model: Transformer<H, E>, caches: seq<KvCache<E>>, toks: Tokens, draft: Tokens,
                          samples: Tokens, isPrompt: bool)
    returns (rows: seq<H>, accepted: Tokens, narrowed: seq<KvCache<E>>)
    requires |model.layers| > 0 && toks != [] && draft != [] && |samples| == |draft|
    requires Agrees(model, caches, if isPrompt then [] else ButLast(toks))
    ensures rows == Scratch(model, toks + ButLast(draft)).0[|toks| - 1..]
    ensures accepted == samples[..AcceptedCount(samples, draft)]
    ensures Agrees(model, narrowed, ButLast(toks + accepted))
  {
    hide Agrees, Scratch, Forward, AcceptedCount, AllEntries, Cut, AllReady;
    ghost var before := if isPrompt then [] else ButLast(toks);
    var prefill := (if isPrompt then toks else [toks[|toks| - 1]]) + draft[..|draft| - 1];
    assert before + prefill == toks + ButLast(draft) by { PrefillText(toks, draft, isPrompt); }
    AgreesIsReady(model, caches, before);
    ReuseEqualsScratch(model, caches, before, prefill);
    var (outputs, extended) := Forward(model, caches, prefill, caches[0].k.currentSeqLen);
    rows := outputs[|outputs| - |draft|..];
    accepted := AcceptSamples(samples, draft);
    AgreesIsReady(model, extended, toks + ButLast(draft));
    narrowed := NarrowCaches(extended, |toks| + |draft| - 1, |draft| - |accepted|);
    CutCacheAgrees(model, extended, narrowed, toks, draft, samples, |toks| + |accepted| - 1);
  }
}
