/** How a request becomes a sequence, with what the prefix cache has for it, and how a finished sequence becomes a
    cache. */
module Admission {
  import opened Common
  import PrefixCacher
  import opened PrefixReuse
  import Utf8
  import BlockTable
  import SequenceState
  import opened Generation
  import opened PromptStep

  type Tokens = PrefixCacher.Tokens

  /** What is asked for beside the prompt. */
  datatype Limits = Limits(stopTokens: seq<nat>, stopStrings: seq<seq<Utf8.Byte>>, maxLen: Option<nat>,
                           blockSize: Option<nat>)

  /** The sequence's caches are those of the part of its tokens that it does not run. */
  ghost predicate Admitted<H, E(!new)>(model: Transformer<H, E>, s: SequenceState.Sequence<E>)
    requires |model.layers| > 0
    reads s
  {
    && s.tokenOffset < |s.tokens| && s.GetToks() == s.tokens[s.tokenOffset..]
    && (s.tokenOffset > 0 ==>
        AllPresent(s.normalCache) && Agrees(model, Unwrapped(s.normalCache), s.tokens[..s.tokenOffset]))
    && (s.tokenOffset == 0 ==> s.normalCache == seq(|model.layers|, _ => None))
  }

  /** The offset is one short of the longest beginning that the prompt shares with a stored key, if that has two
      tokens. */
  ghost predicate MatchedExactly(keys: set<Tokens>, noPrefixCache: bool, prompt: Tokens, offset: nat) {
    if noPrefixCache then offset == 0
    else
      && (forall k <- keys :: PrefixCacher.SharedPrefix(prompt, k) <= offset + 1)
      && (offset > 0 ==> exists k <- keys :: PrefixCacher.SharedPrefix(prompt, k) == offset + 1)
  }

  /** A new sequence for a prompt: its tokens are the prompt, those it runs are what the best match leaves. */
  method Admit<H, E(!new)>(manager: PrefixCacher.PrefixCacheManager<E>, ghost model: Transformer<H, E>, layers: nat,
                           prompt: Tokens, limits: Limits)
    returns (s: SequenceState.Sequence<E>)
    requires |model.layers| == layers > 0 && Faithful(model, manager.caches) && prompt != []
    requires limits.blockSize.Some? ==> limits.blockSize.value >= 1
    ensures fresh(s) && s.Valid() && BlockTable.Canonical(s.customMetadata, s.tokens)
    ensures s.tokens == prompt && s.promptLen == |prompt| && s.Generated() == 0
    ensures Admitted(model, s) && MatchedExactly(manager.caches.Keys, manager.noPrefixCache, prompt, s.tokenOffset)
    ensures s.state == if s.tokenOffset > 0 then SequenceState.RunningPrefillPrompt else SequenceState.Waiting
  {
    hide Agrees, AllPresent, StoredFor, Unwrapped;
    var found := manager.SearchForMatchingCache(prompt, false);
    s := new SequenceState.Sequence<E>.NewWaiting(prompt, layers, limits.stopTokens, limits.stopStrings, limits.maxLen,
                                                  limits.blockSize);
    if found.Some? {
      SearchResultAgrees(model, manager.caches, manager.device, manager.noPrefixCache, prompt, found);
      s.PrefillV2(found.value.normal, found.value.toks, found.value.offset);
    }
  }

  /** A finished sequence is stored under all of its tokens, and the prefix cache stays faithful, although the last
      token was never run. */
  method Retire<H, E(!new)>(manager: PrefixCacher.PrefixCacheManager<E>, ghost model: Transformer<H, E>,
                            s: SequenceState.Sequence<E>)
    requires |model.layers| > 0 && Faithful(model, manager.caches)
    requires s.prefillPromptToks.None? && StoredFor(model, s.tokens, s.normalCache)
    modifies manager
    ensures Faithful(model, manager.caches)
    ensures !manager.noPrefixCache ==> manager.caches.Keys == old(manager.caches.Keys) + {s.tokens}
  {
    StoreAndEvict(manager, model, s.GetToks(), s.normalCache);
  }

  // ----- between admission and retirement

  /** The caches are those of the given tokens, in every layer. */
  ghost predicate HasRun<H, E(!new)>(model: Transformer<H, E>, cache: PrefixCacher.LayerCaches<E>, toks: Tokens)
    requires |model.layers| > 0
  {
    AllPresent(cache) && Agrees(model, Unwrapped(cache), toks)
  }

  lemma WrappedHasRun<H, E(!new)>(model: Transformer<H, E>, caches: seq<PrefixCacher.KvCache<E>>, toks: Tokens)
    requires |model.layers| > 0 && Agrees(model, caches, toks) && Written(caches)
    ensures HasRun(model, Wrapped(caches), toks)
  {
    hide Agrees;
    assert Unwrapped(Wrapped(caches)) == caches;
  }

  /** What has not run its last token belongs to all of them. */
  lemma HasRunIsStored<H, E(!new)>(model: Transformer<H, E>, cache: PrefixCacher.LayerCaches<E>, key: Tokens)
    requires |model.layers| > 0 && key != [] && HasRun(model, cache, key[..|key| - 1])
    ensures StoredFor(model, key, cache)
  {
    hide Agrees;
  }

  lemma NoToks(script: seq<Sampled>)
    ensures Toks(script[..0]) == []
  {
  }

  /** Runs what the match leaves of the prompt, on the caches of the match, and keeps the caches. */
  method RunPrompt<H, E(!new)>(model: Transformer<H, E>, s: SequenceState.Sequence<E>) returns (row: H)
    requires |model.layers| > 0 && Admitted(model, s)
    modifies s`normalCache
    ensures HasRun(model, s.normalCache, s.tokens) && row == ScratchRow(model, s.tokens)
  {
    hide Agrees, Scratch, Forward, EmptyCaches, Wrapped;
    ghost var first := s.tokens[..s.tokenOffset];
    var caches := if s.tokenOffset > 0 then Unwrapped(s.normalCache) else EmptyCaches(|model.layers|);
    if s.tokenOffset == 0 {
      EmptyAgrees(model);
    }
    assert first + s.GetToks() == s.tokens;
    AgreesIsReady(model, caches, first);
    ReuseEqualsScratch(model, caches, first, s.GetToks());
    ForwardWrites(model, caches, s.GetToks(), s.tokenOffset);
    var (outputs, extended) := Forward(model, caches, s.GetToks(), s.tokenOffset);
    row, s.normalCache := outputs[|outputs| - 1], Wrapped(extended);
    WrappedHasRun(model, extended, s.tokens);
  }

  /** Runs the token that was added last. */
  method RunLast<H, E(!new)>(model: Transformer<H, E>, s: SequenceState.Sequence<E>) returns (row: H)
    requires |model.layers| > 0 && s.tokens != [] && HasRun(model, s.normalCache, s.tokens[..|s.tokens| - 1])
    modifies s`normalCache
    ensures HasRun(model, s.normalCache, s.tokens) && row == ScratchRow(model, s.tokens)
  {
    hide Agrees, Scratch, Wrapped;
    ghost var sofar := s.tokens[..|s.tokens| - 1];
    var tok := s.tokens[|s.tokens| - 1];
    assert sofar + [tok] == s.tokens;
    var last, longer := Decode(model, Unwrapped(s.normalCache), sofar, tok, |s.tokens| - 1);
    row, s.normalCache := last, Wrapped(longer);
    WrappedHasRun(model, longer, s.tokens);
  }

  /** The rows that the tokens of a script are sampled from, each by a run from scratch. */
  ghost predicate RowsFromScratch<H, E>(model: Transformer<H, E>, prompt: Tokens, script: seq<Sampled>, rows: seq<H>)
    requires |model.layers| > 0 && prompt != [] && |rows| <= |script|
  {
    forall i :: 0 <= i < |rows| ==> rows[i] == ScratchRow(model, prompt + Toks(script[..i]))
  }

  /** One step: a run, the next token, and the sequence stored if that finishes it. */
  method ServeStep<H, E(!new)>(manager: PrefixCacher.PrefixCacheManager<E>, model: Transformer<H, E>,
                               s: SequenceState.Sequence<E>, isFirst: bool, sampled: Sampled, mode: Mode,
                               eosTok: Option<seq<nat>>, maxModelLen: nat)
    returns (row: H, outcome: Outcome)
    requires |model.layers| > 0 && Faithful(model, manager.caches) && s.tokens != [] && s.IsRunning()
    requires s.Valid() && BlockTable.Canonical(s.customMetadata, s.tokens)
    requires if isFirst then Admitted(model, s) else HasRun(model, s.normalCache, s.tokens[..|s.tokens| - 1])
    modifies manager, s
    ensures Faithful(model, manager.caches) && s.Valid() && BlockTable.Canonical(s.customMetadata, s.tokens)
    ensures s.tokens == old(s.tokens) + [sampled.tok] && row == ScratchRow(model, old(s.tokens))
    ensures HasRun(model, s.normalCache, old(s.tokens))
    ensures !manager.noPrefixCache ==>
              manager.caches.Keys == old(manager.caches.Keys) + if Finishes(mode, outcome) then {s.tokens} else {}
    ensures !s.IsRunning() ==> Finishes(mode, outcome)
  {
    hide Agrees, Scratch, AllPresent, HasRun, Faithful, ScratchRow, BlockTable.Canonical, DeltaOf, StoredFor;
    hide SequenceState.IsStopReason;
    if isFirst {
      row := RunPrompt(model, s);
    } else {
      row := RunLast(model, s);
    }
    ghost var toks := s.tokens;
    outcome := EngineStep(s, sampled, mode, eosTok, maxModelLen);
    assert s.tokens[..|s.tokens| - 1] == toks;
    if Finishes(mode, outcome) {
      HasRunIsStored(model, s.normalCache, s.tokens);
      Retire(manager, model, s);
    }
  }

  /** The scheduler sets an admitted sequence running. */
  method Start<H, E(!new)>(manager: PrefixCacher.PrefixCacheManager<E>, ghost model: Transformer<H, E>, layers: nat,
                           prompt: Tokens, limits: Limits)
    returns (s: SequenceState.Sequence<E>)
    requires |model.layers| == layers > 0 && Faithful(model, manager.caches) && prompt != []
    requires limits.blockSize.Some? ==> limits.blockSize.value >= 1
    ensures fresh(s) && s.Valid() && BlockTable.Canonical(s.customMetadata, s.tokens)
    ensures s.tokens == prompt && Admitted(model, s) && s.state == SequenceState.RunningPrompt && s.IsRunning()
  {
    hide Agrees, AllPresent, Unwrapped;
    s := Admit(manager, model, layers, prompt, limits);
    s.SetState(SequenceState.RunningPrompt);
  }

  lemma RowsOneMore<H, E>(model: Transformer<H, E>, prompt: Tokens, script: seq<Sampled>, rows: seq<H>, row: H)
    requires |model.layers| > 0 && prompt != [] && |rows| < |script|
    ensures RowsFromScratch(model, prompt, script, rows) &&
            row == ScratchRow(model, prompt + Toks(script[..|rows|])) ==>
              RowsFromScratch(model, prompt, script, rows + [row])
  {
    hide ScratchRow, Toks;
  }

  /** A request from its admission on, for as long as its sequence is running. Every row it samples from is that of a
      run from scratch, and it leaves the prefix cache faithful, whenever it is stored there. */
  method Serve<H, E(!new)>(manager: PrefixCacher.PrefixCacheManager<E>, model: Transformer<H, E>, prompt: Tokens,
                           limits: Limits, script: seq<Sampled>, mode: Mode, eosTok: Option<seq<nat>>, maxModelLen: nat)
    returns (s: SequenceState.Sequence<E>, rows: seq<H>)
    requires |model.layers| > 0 && Faithful(model, manager.caches) && prompt != []
    requires limits.blockSize.Some? ==> limits.blockSize.value >= 1
    modifies manager
    ensures Faithful(model, manager.caches)
    ensures |rows| <= |script| && RowsFromScratch(model, prompt, script, rows)
    ensures s.tokens == prompt + Toks(script[..|rows|]) && (|rows| < |script| ==> !s.IsRunning())
    ensures !manager.noPrefixCache && !s.IsRunning() ==> s.tokens in manager.caches
  {
    hide *;
    s := Start(manager, model, |model.layers|, prompt, limits);
    rows := [];
    NoToks(script);
    NoRows(model, prompt, script);
    assert prompt + [] == prompt;
    while |rows| < |script| && s.IsRunning()
      invariant fresh(s) && |rows| <= |script| && s.Valid() && BlockTable.Canonical(s.customMetadata, s.tokens)
      invariant Faithful(model, manager.caches) && RowsFromScratch(model, prompt, script, rows)
      invariant s.tokens == prompt + Toks(script[..|rows|])
      invariant !manager.noPrefixCache && !s.IsRunning() ==> s.tokens in manager.caches.Keys
      invariant if rows == [] then Admitted(model, s) else HasRun(model, s.normalCache, s.tokens[..|s.tokens| - 1])
      decreases |script| - |rows|
    {
      var n := |rows|;
      ghost var toks := s.tokens;
      var row, outcome := ServeStep(manager, model, s, rows == [], script[n], mode, eosTok, maxModelLen);
      assert s.tokens[..|s.tokens| - 1] == toks;
      ToksOneMore(script, n);
      RowsOneMore(model, prompt, script, rows, row);
      rows := rows + [row];
    }
  }

  lemma NoRows<H, E>(model: Transformer<H, E>, prompt: Tokens, script: seq<Sampled>)
    requires |model.layers| > 0 && prompt != []
    ensures RowsFromScratch(model, prompt, script, [])
  {
  }
}
