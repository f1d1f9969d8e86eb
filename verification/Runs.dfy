/** What holds for every run of a sequence: its stream, where it ends, and what bounds its length. */
module Runs {
  import opened Common
  import opened Utf8
  import opened Streaming
  import opened SequenceState
  import opened Generation

  // ----- the stream along a run

  lemma TracePrefix(run: Run, trace: seq<Outcome>, n: nat)
    requires IsTrace(run, trace) && n <= |trace|
    ensures IsTrace(run, trace[..n])
  {
    hide IsNext, EndsAt;
    forall i | 0 <= i < n ensures AsDetermined(run, trace[..n], i) {
      assert AsDetermined(run, trace, i) && trace[..n][..i] == trace[..i];
    }
    forall i | 0 <= i < n - 1 ensures !EndsAt(run, trace[..n], i) {
      assert !EndsAt(run, trace, i);
      SameOutcome(run, trace, n, i);
    }
  }

  lemma SameOutcome(run: Run, trace: seq<Outcome>, n: nat, i: nat)
    requires i < n <= |trace|
    ensures EndsAt(run, trace[..n], i) <==> EndsAt(run, trace, i)
  {
  }

  /** The outcome of one token of a trace, in terms of the trace before it. */
  lemma OutcomeAt(run: Run, trace: seq<Outcome>, i: nat)
    requires IsTrace(run, trace) && i < |trace|
    ensures IsStopReason(run.rules, false, run.start + i, Completion(run, trace[..i]), run.script[i].tok,
                         trace[i].reason)
    ensures trace[i].delta == DeltaOf(run.mode, run.script[i], Completion(run, trace[..i + 1]), Cursor(run, trace[..i]))
    ensures Completion(run, trace[..i + 1])
         == Completion(run, trace[..i]) + if StoppedByToken(trace[i].reason) then [] else run.script[i].bytes
    ensures Cursor(run, trace[..i + 1])
         == if trace[i].delta.Some? then |Completion(run, trace[..i + 1])| else Cursor(run, trace[..i])
    ensures Emitted(trace[..i + 1]) == Emitted(trace[..i]) + TextOf(trace[i].delta)
  {
    hide IsStopReason, DeltaOf, Completion, Cursor, Emitted;
    assert AsDetermined(run, trace, i);
    assert trace[..i] + [trace[i]] == trace[..i + 1];
    NextOutcome(run, trace[..i], trace[i]);
    EmittedStep(trace[..i], trace[i]);
  }

  /** Along every run the deltas add up to the decoding of the completion before the cursor. */
  lemma {:induction false} StreamedAlong(run: Run, trace: seq<Outcome>, n: nat, firstCut: nat, emitted: seq<Scalar>)
    returns (cut: nat)
    requires IsTrace(run, trace) && n <= |trace| && Streamed(run.bytes, run.streamIdx, firstCut, emitted)
    ensures Streamed(Completion(run, trace[..n]), Cursor(run, trace[..n]), cut, emitted + Emitted(trace[..n]))
    decreases n
  {
    hide IsStopReason, Streamed, Delta, Completion, Cursor, Emitted, AsDetermined;
    if n == 0 {
      NothingYet(run);
      assert trace[..0] == [] && emitted + Emitted(trace[..0]) == emitted;
      cut := firstCut;
    } else {
      cut := StreamedAlong(run, trace, n - 1, firstCut, emitted);
      OutcomeAt(run, trace, n - 1);
      var bytes, idx, sent :=
        Completion(run, trace[..n - 1]), Cursor(run, trace[..n - 1]), emitted + Emitted(trace[..n - 1]);
      var more := if StoppedByToken(trace[n - 1].reason) then [] else run.script[n - 1].bytes;
      StreamedGrows(bytes, more, idx, cut, sent);
      if trace[n - 1].delta.Some? {
        DeltaKeepsStreamed(bytes + more, idx, cut, sent);
        assert sent + trace[n - 1].delta.value == emitted + Emitted(trace[..n]);
        cut := if idx == 0 then |bytes + more| else cut;
      } else {
        assert emitted + Emitted(trace[..n]) == sent;
      }
    }
  }

  /** While the completion is part of a valid text without U+FFFD, a delta that is taken is there exactly if the
      completion at that moment ends on a code point boundary. */
  lemma DeltaMeansBoundary(run: Run, trace: seq<Outcome>, i: nat, firstCut: nat, emitted: seq<Scalar>,
                           text: seq<Scalar>, m: nat)
    requires IsTrace(run, trace) && i < |trace| && Streamed(run.bytes, run.streamIdx, firstCut, emitted)
    requires run.mode.streaming && run.script[i].taken
    requires REPLACEMENT !in text && m <= |EncodeText(text)| && Completion(run, trace[..i + 1]) == EncodeText(text)[..m]
    ensures trace[i].delta.Some? <==> OnBoundary(text, m)
  {
    hide IsStopReason, Streamed, Delta, Completion, Cursor, Emitted, AsDetermined, EncodeText, OnBoundary;
    var cut := StreamedAlong(run, trace, i, firstCut, emitted);
    OutcomeAt(run, trace, i);
    var bytes, idx, sent := Completion(run, trace[..i]), Cursor(run, trace[..i]), emitted + Emitted(trace[..i]);
    StreamedGrows(bytes, if StoppedByToken(trace[i].reason) then [] else run.script[i].bytes, idx, cut, sent);
    StreamedInBounds(Completion(run, trace[..i + 1]), idx, cut, sent);
    DeltaExactly(text, m, idx, cut, sent);
  }

  /** A streaming run ends at a token exactly if there is a reason, a delta may be taken, and the completion then ends
      on a code point boundary; and it is not the token of the prompt step, of which the default scheduler makes
      nothing. */
  lemma StreamingEndsExactly(run: Run, trace: seq<Outcome>, i: nat, firstCut: nat, emitted: seq<Scalar>,
                             text: seq<Scalar>, m: nat)
    requires IsTrace(run, trace) && i < |trace| && Streamed(run.bytes, run.streamIdx, firstCut, emitted)
    requires run.mode.streaming
    requires REPLACEMENT !in text && m <= |EncodeText(text)| && Completion(run, trace[..i + 1]) == EncodeText(text)[..m]
    ensures EndsAt(run, trace, i) <==>
              trace[i].reason.Some? && run.script[i].taken && OnBoundary(text, m)
              && !(run.prompt && i == 0 && run.mode.scheduler.DefaultScheduler?)
  {
    hide IsStopReason, Streamed, Delta, Completion, Cursor, Emitted, AsDetermined, EncodeText, OnBoundary;
    OutcomeAt(run, trace, i);
    if run.script[i].taken {
      DeltaMeansBoundary(run, trace, i, firstCut, emitted, text, m);
    }
  }

  // ----- the length of a run

  /** The least limit that has not been passed. The tests for the limits are tests for equality. */
  function LimitAhead(rules: StopRules, generated: nat): (limit: Option<nat>)
    ensures limit.Some? ==> generated <= limit.value
  {
    var model := if generated <= rules.maxModelLen then Some(rules.maxModelLen) else None;
    if rules.maxLen.Some? && generated <= rules.maxLen.value
    then Some(if model.Some? then Min(rules.maxLen.value, model.value) else rules.maxLen.value)
    else model
  }

  lemma NoLimitBehind(rules: StopRules, generated: nat, g: nat)
    requires generated <= g
    ensures LimitAhead(rules, generated).None? ==> !AtLength(rules, g)
  {
  }

  lemma ReasonAtLimit(run: Run, trace: seq<Outcome>, i: nat)
    requires IsTrace(run, trace) && i < |trace|
    ensures AtLength(run.rules, run.start + i) ==> trace[i].reason.Some?
    ensures trace[i].reason.Some? && (trace[i].reason.value.Length? || trace[i].reason.value.ModelLength?) ==>
              AtLength(run.rules, run.start + i)
  {
    hide AsDetermined;
    OutcomeAt(run, trace, i);
  }

  lemma OnlyLastEnds(run: Run, trace: seq<Outcome>, i: nat)
    requires IsTrace(run, trace) && i < |trace|
    ensures EndsAt(run, trace, i) ==> i == |trace| - 1
  {
    hide EndsAt;
  }

  /** A limit bounds a run exactly if the run ends there; whether it does is said by the outcome at the limit. */
  lemma LimitBindsExactly(run: Run, trace: seq<Outcome>, i: nat)
    requires IsTrace(run, trace) && (Ended(run, trace) || |trace| == |run.script|)
    requires AtLength(run.rules, run.start + i) && i < |trace| && i + 1 < |run.script|
    ensures trace[i].reason.Some?
    ensures |trace| == i + 1 <==>
              Finishes(run.mode, trace[i]) && !(run.prompt && i == 0 && run.mode.scheduler.DefaultScheduler?)
  {
    ReasonAtLimit(run, trace, i);
    OnlyLastEnds(run, trace, i);
    hide AsDetermined;
  }

  /** With streaming, within a valid text, it does exactly if the completion then ends on a code point boundary, and a
      delta may be taken. */
  lemma StreamingLimitBindsExactly(run: Run, trace: seq<Outcome>, i: nat, firstCut: nat, emitted: seq<Scalar>,
                                   text: seq<Scalar>, m: nat)
    requires IsTrace(run, trace) && (Ended(run, trace) || |trace| == |run.script|)
    requires AtLength(run.rules, run.start + i) && i < |trace| && i + 1 < |run.script|
    requires run.mode.streaming && Streamed(run.bytes, run.streamIdx, firstCut, emitted)
    requires REPLACEMENT !in text && m <= |EncodeText(text)|
    requires Completion(run, trace[..i + 1]) == EncodeText(text)[..m]
    ensures |trace| == i + 1 <==>
              run.script[i].taken && OnBoundary(text, m)
              && !(run.prompt && i == 0 && run.mode.scheduler.DefaultScheduler?)
  {
    hide OnBoundary, EncodeText, Completion, Streamed;
    LimitBindsExactly(run, trace, i);
    StreamingEndsExactly(run, trace, i, firstCut, emitted, text, m);
  }

  /** Where the default scheduler makes nothing of the token of the prompt step, the limits that count lie behind it. */
  function FirstCounted(run: Run): nat {
    if run.prompt && run.mode.scheduler.DefaultScheduler? then run.start + 1 else run.start
  }

  /** Without streaming, every run ends at the first reason that counts, so no run jumps over the limit ahead. */
  lemma LimitBoundsWithoutStreaming(run: Run, trace: seq<Outcome>)
    requires IsTrace(run, trace) && !run.mode.streaming && LimitAhead(run.rules, FirstCounted(run)).Some?
    ensures var limit := LimitAhead(run.rules, FirstCounted(run)).value;
            run.start + |trace| <= limit + 1 && (run.start + |trace| == limit + 1 ==> Ended(run, trace))
  {
    var i := LimitAhead(run.rules, FirstCounted(run)).value - run.start;
    if i < |trace| {
      ReasonAtLimit(run, trace, i);
      OnlyLastEnds(run, trace, i);
    }
  }

  /** Without streaming a run ends at a token exactly if there is a reason that counts. */
  lemma EndsAtFirstReason(run: Run, trace: seq<Outcome>, i: nat)
    requires IsTrace(run, trace) && i < |trace| && !run.mode.streaming
    ensures EndsAt(run, trace, i) <==> trace[i].reason.Some? && run.start + i >= FirstCounted(run)
    ensures trace[i].reason.Some? && run.start + i >= FirstCounted(run) ==> |trace| == i + 1
  {
    OnlyLastEnds(run, trace, i);
    hide AsDetermined;
  }

  /** Tokens that are no reason to stop and leave no bytes, behind bytes that hold no stop string. */
  ghost predicate Harmless(run: Run) {
    && NoStopString(run.rules.stopStrings, |run.rules.stopStrings|, run.bytes)
    && forall i :: 0 <= i < |run.script| ==> HarmlessToken(run.rules, run.script[i])
  }

  predicate HarmlessToken(rules: StopRules, sampled: Sampled) {
    sampled.bytes == [] && (rules.eosTok.Some? ==> sampled.tok !in rules.eosTok.value) &&
      sampled.tok !in rules.stopTokens
  }

  lemma {:induction false} HarmlessCompletion(run: Run, trace: seq<Outcome>, n: nat)
    requires Harmless(run) && IsTrace(run, trace) && n <= |trace|
    ensures Completion(run, trace[..n]) == run.bytes
    decreases n
  {
    hide AsDetermined, IsStopReason, DeltaOf, NoStopString;
    if n > 0 {
      HarmlessCompletion(run, trace, n - 1);
      OutcomeAt(run, trace, n - 1);
      assert HarmlessToken(run.rules, run.script[n - 1]);
    }
  }

  /** Nothing else bounds a run: for such tokens there is a reason exactly at the limits. */
  lemma ReasonOnlyAtLimit(run: Run, trace: seq<Outcome>, i: nat)
    requires Harmless(run) && IsTrace(run, trace) && i < |trace|
    ensures trace[i].reason.Some? <==> AtLength(run.rules, run.start + i)
  {
    hide AsDetermined, DeltaOf, Completion;
    HarmlessCompletion(run, trace, i);
    OutcomeAt(run, trace, i);
    assert HarmlessToken(run.rules, run.script[i]);
  }

  /** So once both limits are passed a run of them goes on forever. */
  lemma PassedLimitsNeverEnd(run: Run, trace: seq<Outcome>)
    requires Harmless(run) && IsTrace(run, trace) && (Ended(run, trace) || |trace| == |run.script|)
    requires LimitAhead(run.rules, run.start).None?
    ensures |trace| == |run.script| && !Ended(run, trace)
  {
    if trace != [] {
      ReasonOnlyAtLimit(run, trace, |trace| - 1);
      NoLimitBehind(run.rules, run.start, run.start + |trace| - 1);
    }
  }

  /** A reason at the token of the prompt step comes to nothing: with a limit of no tokens at all, such a run goes on to
      the limit of the model. */
  lemma PromptReasonIsLost(run: Run, trace: seq<Outcome>)
    requires Harmless(run) && IsTrace(run, trace) && (Ended(run, trace) || |trace| == |run.script|)
    requires run.mode == Mode(false, DefaultScheduler) && run.prompt && run.start == 0 && run.script != []
    requires run.rules.maxLen == Some(0) && run.rules.maxModelLen > 0
    ensures trace != [] && trace[0].reason == Some(Length(0))
    ensures |trace| == Min(|run.script|, run.rules.maxModelLen + 1)
  {
    ReasonOnlyAtLimit(run, trace, |trace| - 1);
    LimitBoundsWithoutStreaming(run, trace);
    OutcomeAt(run, trace, 0);
    assert HarmlessToken(run.rules, run.script[0]);
  }

  /** An a, then the first byte of a longer encoding, then tokens without bytes. */
  function CutOff(k: nat): (script: seq<Sampled>)
    ensures |script| == k + 2
  {
    [Sampled(1, [0x61], true), Sampled(2, [0xE2], true)] + seq(k, _ => Sampled(3, [], true))
  }

  /** The limit is jumped over where no delta comes out: both limits are one token, and every streaming run of these
      goes on for any number of tokens. */
  lemma StreamingJumpsLimit(k: nat, scheduler: Scheduler, prompt: bool, trace: seq<Outcome>)
    requires var run := Run(StopRules(None, [], Some(1), 1, []), Mode(true, scheduler), prompt, 0, [], 0, CutOff(k));
             IsTrace(run, trace) && (Ended(run, trace) || |trace| == |run.script|)
    ensures |trace| == k + 2 && trace[1] == Outcome(Some(Length(1)), None)
    ensures forall i :: 0 <= i < |trace| && i != 1 ==> trace[i].reason.None?
  {
    var run := Run(StopRules(None, [], Some(1), 1, []), Mode(true, scheduler), prompt, 0, [], 0, CutOff(k));
    forall i | 0 <= i < |trace| ensures trace[i].reason == if i == 1 then Some(Length(1)) else None {
      OutcomeAt(run, trace, i);
    }
    if |trace| > 1 {
      CutOffDelta(run, trace);
    }
  }

  lemma CutOffDelta(run: Run, trace: seq<Outcome>)
    requires IsTrace(run, trace) && |trace| > 1 && run.mode.streaming && run.bytes == [] && run.streamIdx == 0
    requires |run.script| > 1 && run.script[0] == Sampled(1, [0x61], true) && run.script[1] == Sampled(2, [0xE2], true)
    requires trace[0].reason.None? && trace[1].reason == Some(Length(1))
    ensures trace[1].delta.None?
  {
    hide AsDetermined, IsStopReason, Lossy, TrimStart;
    CutOffDecoding();
    OutcomeAt(run, trace, 0);
    OutcomeAt(run, trace, 1);
    assert trace[..0] == [];
    assert Completion(run, trace[..1]) == [0x61] && Completion(run, trace[..2]) == [0x61, 0xE2];
    assert [0x61][0..] == [0x61] && [0x61, 0xE2][1..] == [0xE2] && [0x61, 0xE2][0..] == [0x61, 0xE2];
  }

  lemma CutOffDecoding()
    ensures Lossy([0x61]) == [0x61] && Lossy([0xE2]) == [REPLACEMENT] && Lossy([0x61, 0xE2]) == [0x61, REPLACEMENT]
  {
    assert [0x61, 0xE2][1..] == [0xE2] && [0x61][1..] == [] && [0xE2][1..] == [];
  }
}
