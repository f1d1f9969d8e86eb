/** The state of one sequence: its tokens and block table, its completion bytes and stream, and when it stops. */
module SequenceState {
  import opened Common
  import opened Utf8
  import opened Streaming
  import opened BlockTable
  import PrefixCacher

  type Token = nat

  datatype StopReason =
    | Eos
    | StopTok(tok: Token)
    | Length(len: nat)
    | ModelLength(len: nat)
    | StopString(stopStringIdx: nat, completionBytesPos: nat)
    | Canceled
    | GeneratedImage

  datatype State =
    | Done(reason: StopReason)
    | RunningPrompt
    | RunningCompletion
    | Waiting
    | Error
    | RunningPrefillPrompt
    | FinishedAborted
    | FinishedIgnored
    | Swapped

  /** Whether the needle stands at position p. */
  predicate OccursAt(bytes: seq<Byte>, needle: seq<Byte>, p: nat) {
    p + |needle| <= |bytes| && bytes[p..p + |needle|] == needle
  }

  /** The first occurrence at or behind a position. */
  function Find(bytes: seq<Byte>, needle: seq<Byte>, from: nat): (pos: Option<nat>)
    ensures pos.Some? ==>
              from <= pos.value && OccursAt(bytes, needle, pos.value) &&
              forall p: nat :: from <= p < pos.value ==> !OccursAt(bytes, needle, p)
    ensures pos.None? ==> forall p: nat :: from <= p ==> !OccursAt(bytes, needle, p)
    decreases |bytes| - from
  {
    if from > |bytes| then None
    else if OccursAt(bytes, needle, from) then Some(from)
    else Find(bytes, needle, from + 1)
  }

  function StoppedByToken(isDone: Option<StopReason>): bool {
    isDone.Some? && (isDone.value.Eos? || isDone.value.StopTok?)
  }

  /** Exactly a token that ends the sequence leaves no bytes behind. */
  lemma StoppedByTokenMeans(reason: StopReason)
    ensures StoppedByToken(Some(reason)) <==> reason == Eos || (exists tok :: reason == StopTok(tok))
    ensures !StoppedByToken(None)
  {
    if reason.StopTok? {
      assert reason == StopTok(reason.tok);
    }
  }

  /** What a sequence is tested against before each token. */
  datatype StopRules = StopRules(eosTok: Option<seq<Token>>, stopTokens: seq<Token>, maxLen: Option<nat>,
                                 maxModelLen: nat, stopStrings: seq<seq<Byte>>)

  /** None of the first stop strings occurs in the completion. */
  ghost predicate NoStopString(stopStrings: seq<seq<Byte>>, count: nat, bytes: seq<Byte>)
    requires count <= |stopStrings|
  {
    forall i, p: nat :: 0 <= i < count ==> !OccursAt(bytes, stopStrings[i], p)
  }

  /** The one reason to stop, or none, in the order in which the reasons are looked at; of the stop strings it is the
      first listed one that occurs, at its first occurrence. */
  ghost predicate IsStopReason(rules: StopRules, canceled: bool, generated: nat, bytes: seq<Byte>, tok: Token,
                               r: Option<StopReason>) {
    if rules.eosTok.Some? && tok in rules.eosTok.value then r == Some(Eos)
    else if canceled then r == Some(Canceled)
    else if tok in rules.stopTokens then r == Some(StopTok(tok))
    else if rules.maxLen == Some(generated) then r == Some(Length(generated))
    else if generated == rules.maxModelLen then r == Some(ModelLength(generated))
    else if r.None? then NoStopString(rules.stopStrings, |rules.stopStrings|, bytes)
    else
      && r.value.StopString?
      && r.value.stopStringIdx < |rules.stopStrings|
      && NoStopString(rules.stopStrings, r.value.stopStringIdx, bytes)
      && OccursAt(bytes, rules.stopStrings[r.value.stopStringIdx], r.value.completionBytesPos)
      && forall p: nat :: p < r.value.completionBytesPos ==>
           !OccursAt(bytes, rules.stopStrings[r.value.stopStringIdx], p)
  }

  /** There is exactly one answer. */
  lemma StopReasonIsUnique(rules: StopRules, canceled: bool, generated: nat, bytes: seq<Byte>, tok: Token,
                           r: Option<StopReason>, q: Option<StopReason>)
    requires IsStopReason(rules, canceled, generated, bytes, tok, r)
    requires IsStopReason(rules, canceled, generated, bytes, tok, q)
    ensures r == q
  {
  }

  /** Each reason by itself: the ones looked at before it do not hold, and it does. */
  lemma ReasonExactly(rules: StopRules, canceled: bool, generated: nat, bytes: seq<Byte>, tok: Token,
                      r: Option<StopReason>)
    requires IsStopReason(rules, canceled, generated, bytes, tok, r)
    ensures var isEos := rules.eosTok.Some? && tok in rules.eosTok.value;
            var isStop, isLong := tok in rules.stopTokens, rules.maxLen == Some(generated);
            var byToken := isEos || canceled || isStop;
            var occurs := !NoStopString(rules.stopStrings, |rules.stopStrings|, bytes);
            && (r == Some(Eos) <==> isEos)
            && (r == Some(Canceled) <==> canceled && !isEos)
            && (r == Some(StopTok(tok)) <==> isStop && !isEos && !canceled)
            && (r == Some(Length(generated)) <==> isLong && !byToken)
            && (r == Some(ModelLength(generated)) <==> generated == rules.maxModelLen && !isLong && !byToken)
            && (r.Some? && r.value.StopString? <==> occurs && !AtLength(rules, generated) && !byToken)
            && (r == None <==> !occurs && !AtLength(rules, generated) && !byToken)
  {
  }

  predicate AtLength(rules: StopRules, generated: nat) {
    rules.maxLen == Some(generated) || generated == rules.maxModelLen
  }

  class Sequence<!E> {
    const maxLen: Option<nat>
    const stopTokens: seq<Token>
    const stopStrings: seq<seq<Byte>>
    var promptLen: nat
    var tokenOffset: nat
    var isTmp: bool
    var prefillPromptToks: Option<seq<Token>>
    var tokens: seq<Token>
    var lastCompletionBytesLen: nat
    var lastIsDone: Option<StopReason>
    var completionBytes: seq<Byte>
    var streamIdx: nat
    var state: State
    var normalCache: PrefixCacher.LayerCaches<E>
    var customMetadata: SequenceCustomMetadata

    /** Everything the deltas have returned so far, and how many bytes the deltas taken at 0 covered. */
    ghost var emitted: seq<Scalar>
    ghost var firstCut: nat

    ghost predicate Valid()
      reads this
    {
      Streamed(completionBytes, streamIdx, firstCut, emitted)
    }

    constructor NewWaiting(tokens: seq<Token>, layers: nat, stopTokens: seq<Token>, stopStrings: seq<seq<Byte>>,
                           maxLen: Option<nat>, blockSize: Option<nat>)
      requires blockSize.Some? ==> blockSize.value >= 1
      ensures Valid() && Canonical(customMetadata, tokens) && (customMetadata.PagedAttention? <==> blockSize.Some?)
      ensures customMetadata.PagedAttention? ==> customMetadata.blockSize == blockSize.value
      ensures this.tokens == tokens && promptLen == |tokens| && completionBytes == [] && streamIdx == 0
      ensures this.stopTokens == stopTokens && this.stopStrings == stopStrings && this.maxLen == maxLen
      ensures state == Waiting && !isTmp && prefillPromptToks == None && tokenOffset == 0
      ensures normalCache == seq(layers, _ => None) && emitted == []
    {
      var empty := if blockSize.Some? then PagedAttention([], blockSize.value) else NoMetadata;
      AppendAllKeepsTable(empty, [], tokens);
      assert [] + tokens == tokens;
      NothingStreamed([]);
      hide AppendAll, Table, Streamed;
      this.tokens, promptLen, tokenOffset, isTmp, prefillPromptToks := tokens, |tokens|, 0, false, None;
      this.stopTokens, this.stopStrings, this.maxLen := stopTokens, stopStrings, maxLen;
      lastCompletionBytesLen, lastIsDone, completionBytes, streamIdx, state := 0, None, [], 0, Waiting;
      emitted, firstCut := [], 0;
      normalCache := seq(layers, _ => None);
      customMetadata := empty;
      new;
      AppendTokensToBlocks(tokens);
    }

    method SetState(state: State)
      modifies this`state
      ensures this.state == state
    {
      this.state := state;
    }

    /** What a scheduler looks at before it lets the sequence go on. */
    function IsRunning(): bool
      reads this
    {
      state == RunningCompletion || state == RunningPrompt
    }

    /** Appends tokens to the block table one by one. */
    method AppendTokensToBlocks(toks: seq<Token>)
      requires AppendAll(customMetadata, toks).Some?
      modifies this`customMetadata
      ensures customMetadata == AppendAll(old(customMetadata), toks).value
    {
      ghost var before := customMetadata;
      assert toks[..|toks|] == toks;
      for i := 0 to |toks|
        invariant AppendAll(before, toks[..i]) == Some(customMetadata)
      {
        AppendAllPrefix(before, toks, i + 1);
        assert toks[..i + 1][..i] == toks[..i];
        customMetadata := Append(customMetadata, toks[i]).value;
      }
    }

    method RemoveTokensFromBlocks(n: nat)
      requires Remove(customMetadata, n).Some?
      modifies this`customMetadata
      ensures customMetadata == Remove(old(customMetadata), n).value
    {
      ghost var before := customMetadata;
      for i := 0 to n
        invariant Remove(before, i) == Some(customMetadata)
      {
        RemovePrefix(before, n, i + 1);
        customMetadata := Pop(customMetadata).value;
      }
    }

    /** A prompt whose beginning is served from the prefix cache. */
    method PrefillV2(cache: PrefixCacher.LayerCaches<E>, toks: seq<Token>, offset: nat)
      modifies this`normalCache, this`prefillPromptToks, this`state, this`tokenOffset
      ensures normalCache == cache && prefillPromptToks == Some(toks) && tokenOffset == offset
      ensures state == RunningPrefillPrompt
    {
      normalCache := cache;
      prefillPromptToks := Some(toks);
      state := RunningPrefillPrompt;
      tokenOffset := offset;
    }

    function GetToks(): seq<Token>
      reads this
    {
      if prefillPromptToks.Some? then prefillPromptToks.value else tokens
    }

    method SetToks(toks: seq<Token>)
      requires customMetadata.PagedAttention? ==> customMetadata.blockSize >= 1
      modifies this`tokens, this`promptLen, this`customMetadata
      ensures tokens == toks && promptLen == |toks| && Canonical(customMetadata, toks)
      ensures customMetadata.PagedAttention? <==> old(customMetadata.PagedAttention?)
      ensures customMetadata.PagedAttention? ==> customMetadata.blockSize == old(customMetadata.blockSize)
    {
      tokens := toks;
      promptLen := |tokens|;
      match customMetadata {
        case PagedAttention(_, blockSize) => customMetadata := PagedAttention([], blockSize);
        case NoMetadata =>
      }
      AppendAllKeepsTable(customMetadata, [], toks);
      assert [] + toks == toks;
      AppendTokensToBlocks(toks);
    }

    method AddTmpTok(tok: Token)
      requires Append(customMetadata, tok).Some?
      modifies this`isTmp, this`tokens, this`customMetadata
      ensures isTmp && tokens == old(tokens) + [tok]
      ensures customMetadata == Append(old(customMetadata), tok).value
      ensures old(Canonical(customMetadata, tokens)) ==> Canonical(customMetadata, tokens)
    {
      if Canonical(customMetadata, tokens) {
        AppendKeepsTable(customMetadata, tokens, tok);
      }
      isTmp := true;
      tokens := tokens + [tok];
      customMetadata := Append(customMetadata, tok).value;
    }

    method RemoveTmpTok(n: nat)
      requires n <= |tokens| && Remove(customMetadata, n).Some?
      modifies this`isTmp, this`tokens, this`customMetadata
      ensures !isTmp && tokens == old(tokens)[..|old(tokens)| - n]
      ensures customMetadata == Remove(old(customMetadata), n).value
    {
      isTmp := false;
      tokens := tokens[..|tokens| - n];
      RemoveTokensFromBlocks(n);
    }

    /** Stop tokens leave no bytes behind. */
    method AddToken(tok: Token, bytes: seq<Byte>, isDone: Option<StopReason>)
      requires Valid() && Append(customMetadata, tok).Some?
      modifies this`completionBytes, this`lastCompletionBytesLen, this`lastIsDone, this`customMetadata, this`tokens,
                 this`prefillPromptToks
      ensures Valid()
      ensures tokens == old(tokens) + [tok] && lastIsDone == isDone && prefillPromptToks == None && GetToks() == tokens
      ensures completionBytes == old(completionBytes) + if StoppedByToken(isDone) then [] else bytes
      ensures (isDone == Some(Eos) || exists stop :: isDone == Some(StopTok(stop))) <==> StoppedByToken(isDone)
      ensures lastCompletionBytesLen == if StoppedByToken(isDone) then old(lastCompletionBytesLen) else |bytes|
      ensures customMetadata == Append(old(customMetadata), tok).value
      ensures old(Canonical(customMetadata, tokens)) ==> Canonical(customMetadata, tokens)
    {
      hide Canonical, Append, Streamed;
      if Canonical(customMetadata, tokens) {
        AppendKeepsTable(customMetadata, tokens, tok);
      }
      if !StoppedByToken(isDone) {
        StreamedGrows(completionBytes, bytes, streamIdx, firstCut, emitted);
        completionBytes := completionBytes + bytes;
        lastCompletionBytesLen := |bytes|;
      }
      lastIsDone := isDone;
      customMetadata := Append(customMetadata, tok).value;
      tokens := tokens + [tok];
      prefillPromptToks := None;
    }

    function PeekDelta(): Option<seq<Scalar>>
      requires streamIdx <= |completionBytes|
      reads this
    {
      Delta(completionBytes, streamIdx)
    }

    method GetDelta() returns (delta: Option<seq<Scalar>>)
      requires Valid()
      modifies this`streamIdx, this`emitted, this`firstCut
      ensures Valid()
      ensures delta == old(PeekDelta())
      ensures delta.None? <==> EndsInReplacement(Lossy(completionBytes[old(streamIdx)..]))
      ensures delta.Some? ==>
                if old(streamIdx) == 0 then IsTrimmed(Lossy(completionBytes), delta.value)
                else delta.value == Lossy(completionBytes[old(streamIdx)..])
      ensures streamIdx == if delta.Some? then |completionBytes| else old(streamIdx)
      ensures emitted == if delta.Some? then old(emitted) + delta.value else old(emitted)
    {
      delta := PeekDelta();
      TrimStartTrims(Lossy(completionBytes));
      assert completionBytes[0..] == completionBytes;
      if delta.Some? {
        DeltaKeepsStreamed(completionBytes, streamIdx, firstCut, emitted);
        emitted, firstCut := emitted + delta.value, if streamIdx == 0 then |completionBytes| else firstCut;
        streamIdx := |completionBytes|;
      }
    }

    /** Number of tokens behind the prompt. */
    function Generated(): (n: nat)
      reads this
      ensures if promptLen <= |tokens| then promptLen + n == |tokens| else n == 0
    {
      if |tokens| >= promptLen then |tokens| - promptLen else 0
    }

    function Rules(eosTok: Option<seq<Token>>, maxModelLen: nat): StopRules {
      StopRules(eosTok, stopTokens, maxLen, maxModelLen, stopStrings)
    }

    method IsDone(tok: Token, eosTok: Option<seq<Token>>, maxModelLen: nat) returns (r: Option<StopReason>)
      ensures IsStopReason(Rules(eosTok, maxModelLen), state == Done(Canceled), Generated(), completionBytes, tok, r)
    {
      var isEos := eosTok.Some? && tok in eosTok.value;
      if isEos {
        return Some(Eos);
      } else if state == Done(Canceled) {
        return Some(Canceled);
      } else if tok in stopTokens {
        return Some(StopTok(tok));
      } else if maxLen.Some? && Generated() == maxLen.value {
        return Some(Length(maxLen.value));
      } else if Generated() == maxModelLen {
        return Some(ModelLength(maxModelLen));
      }
      for idx := 0 to |stopStrings|
        invariant NoStopString(stopStrings, idx, completionBytes)
      {
        var pos := Find(completionBytes, stopStrings[idx], 0);
        if pos.Some? {
          return Some(StopString(idx, pos.value));
        }
      }
      return None;
    }
  }

  lemma {:induction false} AppendAllPrefix(meta: SequenceCustomMetadata, toks: seq<Token>, i: nat)
    requires AppendAll(meta, toks).Some? && i <= |toks|
    ensures AppendAll(meta, toks[..i]).Some?
    decreases |toks|
  {
    if i < |toks| {
      var most := toks[..|toks| - 1];
      AppendAllPrefix(meta, most, i);
      assert most[..i] == toks[..i];
    } else {
      assert toks[..i] == toks;
    }
  }

  lemma {:induction false} RemovePrefix(meta: SequenceCustomMetadata, n: nat, i: nat)
    requires Remove(meta, n).Some? && i <= n
    ensures Remove(meta, i).Some?
    decreases n
  {
    if i < n {
      RemovePrefix(meta, n - 1, i);
    }
  }
}
