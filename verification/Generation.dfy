/** The generation of one sequence: each sampled token is tested for a reason to stop and then added, and the sequence
    goes on until a scheduler finds that it is no longer running. */
module Generation {
  import opened Common
  import opened Utf8
  import opened Streaming
  import opened BlockTable
  import opened SequenceState

  /** A sampled token and the bytes it decodes to; and whether a delta may be taken, which it may not while the text may
      still become a tool call. */
  datatype Sampled = Sampled(tok: Token, bytes: seq<Byte>, taken: bool)

  datatype Scheduler = DefaultScheduler | PagedAttentionScheduler

  datatype Mode = Mode(streaming: bool, scheduler: Scheduler)

  /** What came of one token: the reason to stop, judged before it was added, and the delta, taken afterwards. */
  datatype Outcome = Outcome(reason: Option<StopReason>, delta: Option<seq<Scalar>>)

  function Toks(script: seq<Sampled>): (toks: seq<Token>)
    ensures |toks| == |script|
  {
    seq(|script|, i requires 0 <= i < |script| => script[i].tok)
  }

  lemma ToksOneMore(script: seq<Sampled>, n: nat)
    requires n < |script|
    ensures Toks(script[..n + 1]) == Toks(script[..n]) + [script[n].tok]
  {
  }

  function TextOf(delta: Option<seq<Scalar>>): seq<Scalar> {
    if delta.Some? then delta.value else []
  }

  // ----- one token

  /** Without streaming a reason finishes the sequence. With streaming it does so only where a delta comes out. */
  predicate Finishes(mode: Mode, outcome: Outcome) {
    outcome.reason.Some? && (mode.streaming ==> outcome.delta.Some?)
  }

  /** Whether the scheduler finds the sequence finished. The default one sets it running again after its prompt step. */
  predicate Ends(mode: Mode, promptStep: bool, outcome: Outcome) {
    Finishes(mode, outcome) && !(promptStep && mode.scheduler.DefaultScheduler?)
  }

  function DeltaOf(mode: Mode, sampled: Sampled, bytes: seq<Byte>, streamIdx: nat): Option<seq<Scalar>> {
    if mode.streaming && sampled.taken && streamIdx <= |bytes| then Delta(bytes, streamIdx) else None
  }

  /** The reason to stop is judged before the token is added. */
  method Step<E>(s: Sequence<E>, sampled: Sampled, eosTok: Option<seq<Token>>, maxModelLen: nat)
    returns (reason: Option<StopReason>)
    requires s.Valid() && Canonical(s.customMetadata, s.tokens)
    modifies s
    ensures s.Valid() && Canonical(s.customMetadata, s.tokens)
    ensures IsStopReason(s.Rules(eosTok, maxModelLen), old(s.state) == Done(Canceled), old(s.Generated()),
                         old(s.completionBytes), sampled.tok, reason)
    ensures s.tokens == old(s.tokens) + [sampled.tok] && s.prefillPromptToks == None
    ensures s.completionBytes == old(s.completionBytes) + if StoppedByToken(reason) then [] else sampled.bytes
    ensures s.promptLen == old(s.promptLen) && s.streamIdx == old(s.streamIdx) && s.emitted == old(s.emitted)
    ensures s.state == old(s.state) && s.normalCache == old(s.normalCache)
  {
    hide Canonical, Append, Streamed, IsStopReason;
    reason := s.IsDone(sampled.tok, eosTok, maxModelLen);
    AppendKeepsTable(s.customMetadata, s.tokens, sampled.tok);
    s.AddToken(sampled.tok, sampled.bytes, reason);
  }

  lemma StreamedInBounds(bytes: seq<Byte>, streamIdx: nat, firstCut: nat, emitted: seq<Scalar>)
    requires Streamed(bytes, streamIdx, firstCut, emitted)
    ensures streamIdx <= |bytes|
  {
  }

  /** Tests for a reason to stop, adds the token, takes a delta, and finishes the sequence. */
  method FinishOrAddToks<E>(s: Sequence<E>, sampled: Sampled, mode: Mode, eosTok: Option<seq<Token>>, maxModelLen: nat)
    returns (outcome: Outcome)
    requires s.Valid() && Canonical(s.customMetadata, s.tokens)
    modifies s
    ensures s.Valid() && Canonical(s.customMetadata, s.tokens)
    ensures IsStopReason(s.Rules(eosTok, maxModelLen), old(s.state) == Done(Canceled), old(s.Generated()),
                         old(s.completionBytes), sampled.tok, outcome.reason)
    ensures s.tokens == old(s.tokens) + [sampled.tok] && s.prefillPromptToks == None
    ensures s.completionBytes == old(s.completionBytes) + if StoppedByToken(outcome.reason) then [] else sampled.bytes
    ensures outcome.delta == DeltaOf(mode, sampled, s.completionBytes, old(s.streamIdx))
    ensures s.streamIdx == if outcome.delta.Some? then |s.completionBytes| else old(s.streamIdx)
    ensures s.emitted == old(s.emitted) + TextOf(outcome.delta)
    ensures s.state == if Finishes(mode, outcome) then Done(outcome.reason.value) else old(s.state)
    ensures s.promptLen == old(s.promptLen) && s.normalCache == old(s.normalCache)
  {
    hide Canonical, Append, IsStopReason, Delta, Streamed;
    var reason := Step(s, sampled, eosTok, maxModelLen);
    assert s.streamIdx <= |s.completionBytes| by {
      StreamedInBounds(s.completionBytes, s.streamIdx, s.firstCut, s.emitted);
    }
    var delta := None;
    if mode.streaming {
      if sampled.taken {
        delta := s.GetDelta();
        if delta.Some? && reason.Some? {
          s.SetState(Done(reason.value));
        }
      }
    } else if reason.Some? {
      s.SetState(Done(reason.value));
    }
    outcome := Outcome(reason, delta);
  }

  /** One step of the engine and what the next scheduling makes of it. */
  method EngineStep<E>(s: Sequence<E>, sampled: Sampled, mode: Mode, eosTok: Option<seq<Token>>, maxModelLen: nat)
    returns (outcome: Outcome)
    requires s.Valid() && Canonical(s.customMetadata, s.tokens) && s.IsRunning()
    modifies s
    ensures s.Valid() && Canonical(s.customMetadata, s.tokens)
    ensures IsStopReason(s.Rules(eosTok, maxModelLen), false, old(s.Generated()), old(s.completionBytes), sampled.tok,
                         outcome.reason)
    ensures s.tokens == old(s.tokens) + [sampled.tok] && s.prefillPromptToks == None
    ensures s.completionBytes == old(s.completionBytes) + if StoppedByToken(outcome.reason) then [] else sampled.bytes
    ensures outcome.delta == DeltaOf(mode, sampled, s.completionBytes, old(s.streamIdx))
    ensures s.streamIdx == if outcome.delta.Some? then |s.completionBytes| else old(s.streamIdx)
    ensures s.emitted == old(s.emitted) + TextOf(outcome.delta)
    ensures s.state == if Ends(mode, old(s.state) == RunningPrompt, outcome) then Done(outcome.reason.value)
                       else RunningCompletion
    ensures s.promptLen == old(s.promptLen) && s.normalCache == old(s.normalCache)
  {
    hide Canonical, IsStopReason, DeltaOf;
    var promptStep := s.state == RunningPrompt;
    outcome := FinishOrAddToks(s, sampled, mode, eosTok, maxModelLen);
    match mode.scheduler {
      case DefaultScheduler =>
        if promptStep {
          s.SetState(RunningCompletion);
        }
      case PagedAttentionScheduler =>
        if s.IsRunning() {
          s.SetState(RunningCompletion);
        }
    }
  }

  // ----- a run

  /** Where a run starts, and what it will sample. */
  datatype Run = Run(rules: StopRules, mode: Mode, prompt: bool, start: nat, bytes: seq<Byte>, streamIdx: nat,
                     script: seq<Sampled>)

  /** The bytes of the completion after the tokens of a trace; a token that is itself the reason leaves none. */
  function Completion(run: Run, trace: seq<Outcome>): seq<Byte>
    requires |trace| <= |run.script|
  {
    if trace == [] then run.bytes
    else
      var n := |trace| - 1;
      Completion(run, trace[..n]) + if StoppedByToken(trace[n].reason) then [] else run.script[n].bytes
  }

  /** Where the cursor stands then. */
  function Cursor(run: Run, trace: seq<Outcome>): nat
    requires |trace| <= |run.script|
  {
    if trace == [] then run.streamIdx
    else if trace[|trace| - 1].delta.Some? then |Completion(run, trace)|
    else Cursor(run, trace[..|trace| - 1])
  }

  /** The text of the deltas that were returned. */
  function Emitted(trace: seq<Outcome>): seq<Scalar> {
    if trace == [] then [] else Emitted(trace[..|trace| - 1]) + TextOf(trace[|trace| - 1].delta)
  }

  /** The outcome of the next token is the one that the rules and the stream determine. */
  ghost predicate IsNext(run: Run, trace: seq<Outcome>, outcome: Outcome)
    requires |trace| < |run.script|
  {
    && IsStopReason(run.rules, false, run.start + |trace|, Completion(run, trace), run.script[|trace|].tok,
                    outcome.reason)
    && outcome.delta == DeltaOf(run.mode, run.script[|trace|], Completion(run, trace + [outcome]), Cursor(run, trace))
  }

  predicate EndsAt(run: Run, trace: seq<Outcome>, i: nat)
    requires i < |trace|
  {
    Ends(run.mode, run.prompt && i == 0, trace[i])
  }

  ghost predicate AsDetermined(run: Run, trace: seq<Outcome>, i: nat)
    requires i < |trace| <= |run.script|
  {
    IsNext(run, trace[..i], trace[i])
  }

  /** A run up to some token: every outcome is as determined, and none but the last ends the run. */
  ghost predicate IsTrace(run: Run, trace: seq<Outcome>) {
    && |trace| <= |run.script|
    && (forall i :: 0 <= i < |trace| ==> AsDetermined(run, trace, i))
    && (forall i :: 0 <= i < |trace| - 1 ==> !EndsAt(run, trace, i))
  }

  predicate Ended(run: Run, trace: seq<Outcome>) {
    trace != [] && EndsAt(run, trace, |trace| - 1)
  }

  lemma TraceStep(run: Run, trace: seq<Outcome>, outcome: Outcome)
    requires IsTrace(run, trace) && !Ended(run, trace) && |trace| < |run.script| && IsNext(run, trace, outcome)
    ensures IsTrace(run, trace + [outcome])
    ensures Ended(run, trace + [outcome]) <==> Ends(run.mode, run.prompt && trace == [], outcome)
    ensures Emitted(trace + [outcome]) == Emitted(trace) + TextOf(outcome.delta)
  {
    hide AsDetermined, EndsAt, Emitted;
    EmittedStep(trace, outcome);
    forall i | 0 <= i <= |trace| ensures AsDetermined(run, trace + [outcome], i) {
      StillDetermined(run, trace, outcome, i);
    }
    forall i | 0 <= i < |trace| ensures !EndsAt(run, trace + [outcome], i) {
      assert EndsAt(run, trace + [outcome], i) == EndsAt(run, trace, i) by { SameEnd(run, trace, outcome, i); }
    }
    assert Ended(run, trace + [outcome]) <==> Ends(run.mode, run.prompt && trace == [], outcome) by {
      SameEnd(run, trace, outcome, |trace|);
    }
  }

  lemma StillDetermined(run: Run, trace: seq<Outcome>, outcome: Outcome, i: nat)
    requires i <= |trace| < |run.script|
    requires if i < |trace| then AsDetermined(run, trace, i) else IsNext(run, trace, outcome)
    ensures AsDetermined(run, trace + [outcome], i)
  {
    hide IsNext;
    assert (trace + [outcome])[..i] == trace[..i];
    assert trace[..|trace|] == trace;
  }

  lemma SameEnd(run: Run, trace: seq<Outcome>, outcome: Outcome, i: nat)
    requires i <= |trace|
    ensures EndsAt(run, trace + [outcome], i)
         == if i < |trace| then EndsAt(run, trace, i) else Ends(run.mode, run.prompt && trace == [], outcome)
  {
  }

  lemma EmittedStep(trace: seq<Outcome>, outcome: Outcome)
    ensures Emitted(trace + [outcome]) == Emitted(trace) + TextOf(outcome.delta)
  {
    assert (trace + [outcome])[..|trace|] == trace;
  }

  lemma NextOutcome(run: Run, trace: seq<Outcome>, outcome: Outcome)
    requires |trace| < |run.script|
    ensures Completion(run, trace + [outcome])
         == Completion(run, trace) + if StoppedByToken(outcome.reason) then [] else run.script[|trace|].bytes
    ensures Cursor(run, trace + [outcome])
         == if outcome.delta.Some? then |Completion(run, trace + [outcome])| else Cursor(run, trace)
  {
    assert (trace + [outcome])[..|trace|] == trace;
  }

  lemma NothingYet(run: Run)
    ensures IsTrace(run, []) && !Ended(run, []) && Completion(run, []) == run.bytes && Cursor(run, []) == run.streamIdx
    ensures Emitted([]) == []
  {
  }

  /** Samples and adds the tokens of a script for as long as the sequence is running. */
  method Generate<E>(s: Sequence<E>, script: seq<Sampled>, mode: Mode, eosTok: Option<seq<Token>>, maxModelLen: nat)
    returns (trace: seq<Outcome>)
    requires s.Valid() && Canonical(s.customMetadata, s.tokens) && s.promptLen <= |s.tokens| && s.IsRunning()
    modifies s
    ensures s.Valid() && Canonical(s.customMetadata, s.tokens)
    ensures var run := Run(s.Rules(eosTok, maxModelLen), mode, old(s.state) == RunningPrompt, old(s.Generated()),
                           old(s.completionBytes), old(s.streamIdx), script);
            IsTrace(run, trace) && (Ended(run, trace) || |trace| == |script|) &&
              (Ended(run, trace) <==> !s.IsRunning()) &&
            s.completionBytes == Completion(run, trace) && s.streamIdx == Cursor(run, trace)
    ensures s.tokens == old(s.tokens) + Toks(script[..|trace|]) && s.Generated() == old(s.Generated()) + |trace|
    ensures s.emitted == old(s.emitted) + Emitted(trace)
    ensures !s.IsRunning() ==>
              trace != [] && trace[|trace| - 1].reason.Some? && s.state == Done(trace[|trace| - 1].reason.value)
  {
    hide Canonical, Streamed, IsStopReason, DeltaOf, IsTrace, Completion, Cursor, Emitted, Toks, IsNext;
    ghost var run := Run(s.Rules(eosTok, maxModelLen), mode, s.state == RunningPrompt, s.Generated(), s.completionBytes,
                         s.streamIdx, script);
    ghost var tokens, emitted := s.tokens, s.emitted;
    trace := [];
    NothingYet(run);
    assert Toks(script[..0]) == [];
    while |trace| < |script| && s.IsRunning()
      invariant |trace| <= |script| && s.promptLen == old(s.promptLen) <= |tokens|
      invariant s.Valid() && Canonical(s.customMetadata, s.tokens)
      invariant s.IsRunning() ==> (s.state == RunningPrompt <==> run.prompt && trace == [])
      invariant !s.IsRunning() ==> trace != [] && trace[|trace| - 1].reason.Some?
                                   && s.state == Done(trace[|trace| - 1].reason.value)
      invariant s.tokens == tokens + Toks(script[..|trace|]) && s.emitted == emitted + Emitted(trace)
      invariant s.completionBytes == Completion(run, trace) && s.streamIdx == Cursor(run, trace)
      invariant IsTrace(run, trace) && (Ended(run, trace) <==> !s.IsRunning())
      decreases |script| - |trace|
    {
      var n := |trace|;
      var outcome := EngineStep(s, script[n], mode, eosTok, maxModelLen);
      NextOutcome(run, trace, outcome);
      assert IsNext(run, trace, outcome) by {
        NextIs(run, trace, outcome);
      }
      TraceStep(run, trace, outcome);
      ToksOneMore(script, n);
      trace := trace + [outcome];
    }
  }

  lemma NextIs(run: Run, trace: seq<Outcome>, outcome: Outcome)
    requires |trace| < |run.script|
    ensures IsNext(run, trace, outcome) <==>
              IsStopReason(run.rules, false, run.start + |trace|, Completion(run, trace), run.script[|trace|].tok,
                           outcome.reason)
              && outcome.delta
                   == DeltaOf(run.mode, run.script[|trace|], Completion(run, trace + [outcome]), Cursor(run, trace))
  {
  }
}
