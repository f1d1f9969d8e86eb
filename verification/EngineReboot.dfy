/** Handing out the sender of a running engine, and rebooting a dead one, as an interleaved transition system:
    any number of threads, two reader-writer locks, and engines that may finish at any moment. */
module EngineReboot {
  type Channel = nat

  datatype Engine = Engine(channel: Channel, finished: bool)

  /** Where a thread stands in a call of `get_sender`. */
  datatype Pc =
    | Idle
    | WaitHandlerRead                          // engine_dead: wants to read the handler
    | HoldHandlerRead
    | LookedAtHandler(dead: bool)              // still holds the read lock
    | WaitSenderWrite(made: Channel)          // reboot_engine: has made a channel
    | WaitHandlerWrite(made: Channel)         // holds the sender
    | HoldBoth(made: Channel)
    | Spawned(made: Channel, engine: nat)     // the new engine runs, nothing is stored yet
    | StoredSender(made: Channel, engine: nat)
    | BeforeDropHandler
    | BeforeDropSender
    | WaitSenderRead                           // get_sender: wants to read the sender
    | HoldSenderRead
    | Cloned(sender: Channel)                  // still holds the read lock
    | Returned(sender: Channel)

  predicate ReadsHandler(pc: Pc) { pc.HoldHandlerRead? || pc.LookedAtHandler? }

  predicate WritesHandler(pc: Pc) { pc.HoldBoth? || pc.Spawned? || pc.StoredSender? || pc.BeforeDropHandler? }

  predicate ReadsSender(pc: Pc) { pc.HoldSenderRead? || pc.Cloned? }

  predicate WritesSender(pc: Pc) { pc.WaitHandlerWrite? || WritesHandler(pc) || pc.BeforeDropSender? }

  datatype Sys = Sys(engines: seq<Engine>, sender: Channel, handler: nat, nextChannel: Channel, pcs: map<nat, Pc>)

  predicate Init(s: Sys) {
    s.engines == [Engine(0, false)] && s.sender == 0 && s.handler == 0 && s.nextChannel == 1
    && forall t <- s.pcs.Keys :: s.pcs[t] == Idle
  }

  // ----- the locks: who may go on

  predicate NoSenderWriter(pcs: map<nat, Pc>) { forall t <- pcs.Keys :: !WritesSender(pcs[t]) }

  predicate NoSenderReader(pcs: map<nat, Pc>) { forall t <- pcs.Keys :: !ReadsSender(pcs[t]) }

  predicate NoHandlerWriter(pcs: map<nat, Pc>) { forall t <- pcs.Keys :: !WritesHandler(pcs[t]) }

  predicate NoHandlerReader(pcs: map<nat, Pc>) { forall t <- pcs.Keys :: !ReadsHandler(pcs[t]) }

  predicate MayAdvance(pcs: map<nat, Pc>, t: nat)
    requires t in pcs
  {
    match pcs[t]
    case WaitHandlerRead => NoHandlerWriter(pcs)
    case WaitSenderWrite(_) => NoSenderWriter(pcs) && NoSenderReader(pcs)
    case WaitHandlerWrite(_) => NoHandlerWriter(pcs) && NoHandlerReader(pcs)
    case WaitSenderRead => NoSenderWriter(pcs)
    case _ => true
  }

  /** An engine finishes, or a thread advances. */
  datatype Step = Finish(engine: nat) | Advance(thread: nat)

  predicate Alive(s: Sys, e: nat) { e < |s.engines| && !s.engines[e].finished }

  predicate Enabled(s: Sys, step: Step) {
    match step
    case Finish(e) => Alive(s, e)
    case Advance(t) => t in s.pcs && MayAdvance(s.pcs, t)
  }

  function NextPc(s: Sys, pc: Pc): Pc {
    match pc
    case Idle => WaitHandlerRead
    case WaitHandlerRead => HoldHandlerRead
    case HoldHandlerRead => LookedAtHandler(!Alive(s, s.handler))
    case LookedAtHandler(dead) => if dead then WaitSenderWrite(s.nextChannel) else WaitSenderRead
    case WaitSenderWrite(made) => WaitHandlerWrite(made)
    case WaitHandlerWrite(made) => HoldBoth(made)
    case HoldBoth(made) => if Alive(s, s.handler) then BeforeDropHandler else Spawned(made, |s.engines|)
    case Spawned(made, engine) => StoredSender(made, engine)
    case StoredSender(_, _) => BeforeDropHandler
    case BeforeDropHandler => BeforeDropSender
    case BeforeDropSender => WaitSenderRead
    case WaitSenderRead => HoldSenderRead
    case HoldSenderRead => Cloned(s.sender)
    case Cloned(sender) => Returned(sender)
    case Returned(_) => Idle
  }

  function Apply(s: Sys, step: Step): Sys
    requires Enabled(s, step)
  {
    match step
    case Finish(e) => s.(engines := s.engines[e := s.engines[e].(finished := true)])
    case Advance(t) =>
      var pc := s.pcs[t];
      var next := NextPc(s, pc);
      Sys(if next.Spawned? then s.engines + [Engine(next.made, false)] else s.engines,
          if next.StoredSender? then next.made else s.sender,
          if pc.StoredSender? then pc.engine else s.handler,
          if next.WaitSenderWrite? then s.nextChannel + 1 else s.nextChannel,
          s.pcs[t := next])
  }

  // ----- the invariant

  /** Between spawning an engine and storing its handle. */
  predicate Swapping(pc: Pc) { pc.Spawned? || pc.StoredSender? }

  ghost predicate Exclusive(pcs: map<nat, Pc>) {
    && (forall t <- pcs.Keys, u <- pcs.Keys :: WritesSender(pcs[t]) && t != u ==>
        !WritesSender(pcs[u]) && !ReadsSender(pcs[u]))
    && (forall t <- pcs.Keys, u <- pcs.Keys :: WritesHandler(pcs[t]) && t != u ==>
        !WritesHandler(pcs[u]) && !ReadsHandler(pcs[u]))
  }

  /** No engine runs but possibly e. */
  ghost predicate OnlyAlive(s: Sys, e: nat) { forall d: nat :: Alive(s, d) ==> d == e }

  ghost predicate SwapOk(s: Sys, pc: Pc) {
    Swapping(pc) ==>
      && pc.engine < |s.engines| && pc.engine != s.handler < |s.engines| && s.engines[pc.engine].channel == pc.made
      && OnlyAlive(s, pc.engine)
      && s.sender == if pc.StoredSender? then pc.made else s.engines[s.handler].channel
  }

  ghost predicate NobodySwaps(pcs: map<nat, Pc>) { forall t <- pcs.Keys :: !Swapping(pcs[t]) }

  ghost predicate Inv(s: Sys) {
    && s.handler < |s.engines|
    && Exclusive(s.pcs)
    && (forall t <- s.pcs.Keys :: SwapOk(s, s.pcs[t]))
    && (NobodySwaps(s.pcs) ==> OnlyAlive(s, s.handler) && s.sender == s.engines[s.handler].channel)
  }

  /** At most one engine runs at any time. */
  lemma AtMostOneEngine(s: Sys, d: nat, e: nat)
    requires Inv(s) && Alive(s, d) && Alive(s, e)
    ensures d == e
  {
    if !NobodySwaps(s.pcs) {
      var t :| t in s.pcs.Keys && Swapping(s.pcs[t]);
      assert SwapOk(s, s.pcs[t]);
    }
  }

  /** Outside the swap the stored sender is the channel of the engine whose handle is stored; so it is for whoever reads
      it. */
  lemma SenderMatchesHandler(s: Sys)
    requires Inv(s) && (NobodySwaps(s.pcs) || exists t <- s.pcs.Keys :: ReadsSender(s.pcs[t]) || ReadsHandler(s.pcs[t]))
    ensures s.sender == s.engines[s.handler].channel
  {
    if !NobodySwaps(s.pcs) {
      var t :| t in s.pcs.Keys && (ReadsSender(s.pcs[t]) || ReadsHandler(s.pcs[t]));
      ReaderMeansNobodySwaps(s.pcs, t);
    }
  }

  lemma ReaderMeansNobodySwaps(pcs: map<nat, Pc>, t: nat)
    requires Exclusive(pcs) && t in pcs && (ReadsSender(pcs[t]) || ReadsHandler(pcs[t]))
    ensures NobodySwaps(pcs)
  {
  }

  lemma WriterSwapsAlone(pcs: map<nat, Pc>, t: nat)
    requires Exclusive(pcs) && t in pcs && WritesHandler(pcs[t])
    ensures forall u <- pcs.Keys :: u != t ==> !Swapping(pcs[u])
  {
  }

  lemma InitInv(s: Sys)
    requires Init(s)
    ensures Inv(s)
  {
  }

  /** Moving one thread on keeps the locks exclusive, if it takes only locks that are free. */
  lemma AdvanceKeepsExclusive(pcs: map<nat, Pc>, t: nat, next: Pc)
    requires Exclusive(pcs) && t in pcs
    requires WritesSender(next) ==> WritesSender(pcs[t]) || (NoSenderWriter(pcs) && NoSenderReader(pcs))
    requires ReadsSender(next) ==> ReadsSender(pcs[t]) || NoSenderWriter(pcs)
    requires WritesHandler(next) ==> WritesHandler(pcs[t]) || (NoHandlerWriter(pcs) && NoHandlerReader(pcs))
    requires ReadsHandler(next) ==> ReadsHandler(pcs[t]) || NoHandlerWriter(pcs)
    ensures Exclusive(pcs[t := next])
  {
  }

  lemma StepKeepsInv(s: Sys, step: Step)
    requires Inv(s) && Enabled(s, step)
    ensures Inv(Apply(s, step))
  {
    match step {
      case Finish(e) =>
        var s' := Apply(s, step);
        forall d: nat | Alive(s', d) ensures Alive(s, d) {
        }
        forall t <- s.pcs.Keys ensures SwapOk(s', s.pcs[t]) {
          assert SwapOk(s, s.pcs[t]);
        }
      case Advance(t) =>
        AdvanceKeepsExclusive(s.pcs, t, NextPc(s, s.pcs[t]));
        AdvanceKeepsInv(s, t);
    }
  }

  lemma AdvanceKeepsInv(s: Sys, t: nat)
    requires Inv(s) && Enabled(s, Advance(t)) && Exclusive(Apply(s, Advance(t)).pcs)
    ensures Inv(Apply(s, Advance(t)))
  {
    hide Exclusive, MayAdvance;
    var s', pc := Apply(s, Advance(t)), s.pcs[t];
    assert SwapOk(s, pc);
    if WritesHandler(pc) {
      WriterSwapsAlone(s.pcs, t);
      assert !Swapping(pc) ==> NobodySwaps(s.pcs);
    }
    forall d: nat | Alive(s', d) && d < |s.engines| ensures Alive(s, d) {
    }
    forall u <- s'.pcs.Keys ensures SwapOk(s', s'.pcs[u]) {
      assert SwapOk(s, s.pcs[u]);
    }
    if NobodySwaps(s'.pcs) && !Swapping(pc) {
      forall u <- s.pcs.Keys ensures !Swapping(s.pcs[u]) {
        assert u in s'.pcs.Keys && (u != t ==> s'.pcs[u] == s.pcs[u]);
      }
      assert NobodySwaps(s.pcs);
      assert !Swapping(NextPc(s, pc)) by { assert s'.pcs[t] == NextPc(s, pc); }
      assert s'.engines == s.engines && s'.sender == s.sender && s'.handler == s.handler;
    } else if NobodySwaps(s'.pcs) {
      assert !Swapping(NextPc(s, pc)) by { assert s'.pcs[t] == NextPc(s, pc); }
      assert pc.StoredSender?;
    }
  }

  // ----- whole runs

  ghost predicate Behaviour(run: seq<Sys>, steps: seq<Step>) {
    |run| == |steps| + 1 && Init(run[0]) &&
    forall i :: 0 <= i < |steps| ==> Enabled(run[i], steps[i]) && run[i + 1] == Apply(run[i], steps[i])
  }

  lemma {:induction false} ReachableInv(run: seq<Sys>, steps: seq<Step>, i: nat)
    requires Behaviour(run, steps) && i < |run|
    ensures Inv(run[i])
    decreases i
  {
    if i == 0 {
      InitInv(run[0]);
    } else {
      ReachableInv(run, steps, i - 1);
      StepKeepsInv(run[i - 1], steps[i - 1]);
    }
  }

  /** In every interleaving, at most one engine runs, and the sender is that of the engine whose handle is stored
      whenever nobody is between spawning an engine and storing its handle. */
  lemma RunsAreSafe(run: seq<Sys>, steps: seq<Step>, i: nat)
    requires Behaviour(run, steps) && i < |run|
    ensures forall d: nat, e: nat :: Alive(run[i], d) && Alive(run[i], e) ==> d == e
    ensures run[i].handler < |run[i].engines|
    ensures NobodySwaps(run[i].pcs) ==> run[i].sender == run[i].engines[run[i].handler].channel
  {
    ReachableInv(run, steps, i);
    forall d: nat, e: nat | Alive(run[i], d) && Alive(run[i], e) ensures d == e {
      AtMostOneEngine(run[i], d, e);
    }
  }

  ghost function AliveSet(s: Sys): set<nat> {
    set e: nat | 0 <= e < |s.engines| && Alive(s, e)
  }

  /** The engines that ran at some moment from i to j. */
  ghost function SeenAlive(run: seq<Sys>, i: nat, j: nat): (seen: set<nat>)
    requires i <= j < |run|
    ensures forall e <- seen :: exists m :: i <= m <= j && Alive(run[m], e)
    decreases j
  {
    if i == j then AliveSet(run[i]) else SeenAlive(run, i, j - 1) + AliveSet(run[j])
  }

  /** The caller has found the stored engine running, or has seen to it that one runs. */
  predicate Assured(pc: Pc) {
    (pc.LookedAtHandler? && !pc.dead) || pc.BeforeDropHandler? || pc.BeforeDropSender? || pc.WaitSenderRead? ||
      pc.HoldSenderRead?
  }

  /** What a caller knows about the engines that ran since its call began. */
  ghost predicate Knows(s: Sys, pc: Pc, seen: set<nat>) {
    && (Assured(pc) ==> s.handler in seen && forall u <- s.pcs.Keys :: Swapping(s.pcs[u]) ==> s.pcs[u].engine in seen)
    && (Swapping(pc) ==> pc.engine in seen)
    && (pc.Cloned? || pc.Returned? ==> exists e <- seen :: e < |s.engines| && s.engines[e].channel == pc.sender)
  }

  lemma OthersKeepKnows(s: Sys, u: nat, t: nat, seen: set<nat>)
    requires Inv(s) && Enabled(s, Advance(u)) && t in s.pcs && u != t && Knows(s, s.pcs[t], seen)
    ensures Knows(Apply(s, Advance(u)), s.pcs[t], seen + AliveSet(Apply(s, Advance(u))))
  {
    hide Exclusive, MayAdvance;
    var s', pc := Apply(s, Advance(u)), s.pcs[t];
    var seen' := seen + AliveSet(s');
    assert SwapOk(s, s.pcs[u]);
    if Assured(pc) {
      forall v <- s'.pcs.Keys | Swapping(s'.pcs[v]) ensures s'.pcs[v].engine in seen' {
        assert v != u ==> s'.pcs[v] == s.pcs[v];
        if v == u && !Swapping(s.pcs[u]) {
          assert Alive(s', s'.pcs[v].engine);
        }
      }
    }
    if pc.Cloned? || pc.Returned? {
      var e :| e in seen && e < |s.engines| && s.engines[e].channel == pc.sender;
      assert s'.engines[e].channel == pc.sender;
    }
  }

  lemma OwnStepKeepsKnows(s: Sys, t: nat, seen: set<nat>)
    requires Inv(s) && Enabled(s, Advance(t)) && !s.pcs[t].Idle? && Knows(s, s.pcs[t], seen)
    ensures Knows(Apply(s, Advance(t)), NextPc(s, s.pcs[t]), seen + AliveSet(Apply(s, Advance(t))))
  {
    hide Exclusive, MayAdvance;
    var s', pc := Apply(s, Advance(t)), s.pcs[t];
    var seen' := seen + AliveSet(s');
    if pc.HoldHandlerRead? || pc.HoldSenderRead? {
      ReaderMeansNobodySwaps(s.pcs, t);
    } else if WritesHandler(pc) {
      WriterSwapsAlone(s.pcs, t);
    }
    if Assured(NextPc(s, pc)) {
      assert pc.HoldHandlerRead? || pc.HoldBoth? ==> Alive(s', s.handler);
      forall v <- s'.pcs.Keys | Swapping(s'.pcs[v]) ensures s'.pcs[v].engine in seen' {
        assert v != t && s'.pcs[v] == s.pcs[v];
      }
    }
    if NextPc(s, pc).Spawned? {
      assert Alive(s', |s.engines|);
    }
    if pc.HoldSenderRead? {
      SenderMatchesHandler(s);
      assert s'.engines[s.handler].channel == s.sender;
    }
  }

  lemma StepKeepsKnows(s: Sys, step: Step, t: nat, seen: set<nat>)
    requires Inv(s) && Enabled(s, step) && t in s.pcs && !s.pcs[t].Idle? && Knows(s, s.pcs[t], seen)
    ensures Knows(Apply(s, step), Apply(s, step).pcs[t], seen + AliveSet(Apply(s, step)))
  {
    match step {
      case Finish(e) =>
        var s', pc := Apply(s, step), s.pcs[t];
        if pc.Cloned? || pc.Returned? {
          var d :| d in seen && d < |s.engines| && s.engines[d].channel == pc.sender;
          assert s'.engines[d].channel == pc.sender;
        }
      case Advance(u) =>
        if u == t {
          OwnStepKeepsKnows(s, t, seen);
        } else {
          OthersKeepKnows(s, u, t, seen);
        }
    }
  }

  /** From i to j thread t is in one call, which begins at i. */
  ghost predicate InCall(run: seq<Sys>, t: nat, i: nat, j: nat) {
    i <= j < |run| && (forall m :: i <= m <= j ==> t in run[m].pcs && !run[m].pcs[t].Idle?) &&
      run[i].pcs[t] == WaitHandlerRead
  }

  lemma {:induction false} CallerKnows(run: seq<Sys>, steps: seq<Step>, t: nat, i: nat, j: nat)
    requires Behaviour(run, steps) && InCall(run, t, i, j)
    ensures Knows(run[j], run[j].pcs[t], SeenAlive(run, i, j))
    decreases j
  {
    hide Inv, Enabled, Apply, Init;
    if i < j {
      ReachableInv(run, steps, j - 1);
      CallerKnows(run, steps, t, i, j - 1);
      StepKeepsKnows(run[j - 1], steps[j - 1], t, SeenAlive(run, i, j - 1));
    }
  }

  lemma {:induction false} ChannelsStay(run: seq<Sys>, steps: seq<Step>, e: nat, i: nat, j: nat)
    requires Behaviour(run, steps) && i <= j < |run| && e < |run[i].engines|
    ensures e < |run[j].engines| && run[j].engines[e].channel == run[i].engines[e].channel
    decreases j
  {
    if i < j {
      ChannelsStay(run, steps, e, i, j - 1);
    }
  }

  /** In every interleaving, the sender a call returns belongs to an engine that ran at some moment during that call. */
  lemma ReturnedSenderWasAlive(run: seq<Sys>, steps: seq<Step>, t: nat, i: nat, j: nat)
    requires Behaviour(run, steps) && InCall(run, t, i, j) && run[j].pcs[t].Returned?
    ensures exists m, e: nat :: i <= m <= j && Alive(run[m], e) && run[m].engines[e].channel == run[j].pcs[t].sender
  {
    CallerKnows(run, steps, t, i, j);
    var e :| e in SeenAlive(run, i, j) && e < |run[j].engines| && run[j].engines[e].channel == run[j].pcs[t].sender;
    var m :| i <= m <= j && Alive(run[m], e);
    ChannelsStay(run, steps, e, m, j);
  }

  // ----- calls come to an end, and dead engines are replaced

  /** How many steps of its own a call has still before it at the most. */
  function StepsLeft(pc: Pc): nat {
    match pc
    case Idle => 14
    case WaitHandlerRead => 13
    case HoldHandlerRead => 12
    case LookedAtHandler(dead) => if dead then 11 else 4
    case WaitSenderWrite(_) => 10
    case WaitHandlerWrite(_) => 9
    case HoldBoth(_) => 8
    case Spawned(_, _) => 7
    case StoredSender(_, _) => 6
    case BeforeDropHandler => 5
    case BeforeDropSender => 4
    case WaitSenderRead => 3
    case HoldSenderRead => 2
    case Cloned(_) => 1
    case Returned(_) => 0
  }

  /** How many of the steps from i on, before j, thread t takes. */
  function OwnSteps(steps: seq<Step>, t: nat, i: nat, j: nat): nat
    requires i <= j <= |steps|
    decreases j
  {
    if i == j then 0 else OwnSteps(steps, t, i, j - 1) + if steps[j - 1] == Advance(t) then 1 else 0
  }

  lemma StepBringsNearer(s: Sys, step: Step, t: nat)
    requires Enabled(s, step) && t in s.pcs && !s.pcs[t].Returned?
    ensures t in Apply(s, step).pcs
    ensures StepsLeft(Apply(s, step).pcs[t]) + (if step == Advance(t) then 1 else 0) <= StepsLeft(s.pcs[t])
  {
  }

  lemma ReturnedStays(s: Sys, step: Step, t: nat)
    requires Enabled(s, step) && t in s.pcs && s.pcs[t].Returned?
    ensures step == Advance(t) ==> Apply(s, step).pcs[t].Idle?
    ensures step != Advance(t) ==> Apply(s, step).pcs[t] == s.pcs[t]
  {
  }

  lemma {:induction false} CallGetsNearer(run: seq<Sys>, steps: seq<Step>, t: nat, i: nat, j: nat)
    requires Behaviour(run, steps) && InCall(run, t, i, j)
    ensures OwnSteps(steps, t, i, j) + StepsLeft(run[j].pcs[t]) <= 13
    decreases j
  {
    hide Enabled, Apply, Init;
    if i < j {
      CallGetsNearer(run, steps, t, i, j - 1);
      if run[j - 1].pcs[t].Returned? {
        ReturnedStays(run[j - 1], steps[j - 1], t);
      } else {
        StepBringsNearer(run[j - 1], steps[j - 1], t);
      }
    }
  }

  /** In every interleaving a call returns with its thirteenth step at the latest. */
  lemma CallReturns(run: seq<Sys>, steps: seq<Step>, t: nat, i: nat, j: nat)
    requires Behaviour(run, steps) && InCall(run, t, i, j)
    ensures OwnSteps(steps, t, i, j) <= 13
    ensures OwnSteps(steps, t, i, j) == 13 ==> run[j].pcs[t].Returned?
  {
    CallGetsNearer(run, steps, t, i, j);
  }

  lemma {:induction false} FinishedStays(run: seq<Sys>, steps: seq<Step>, e: nat, i: nat, j: nat)
    requires Behaviour(run, steps) && i <= j < |run|
    ensures |run[i].engines| <= |run[j].engines|
    ensures e < |run[i].engines| && run[i].engines[e].finished ==> run[j].engines[e].finished
    decreases j
  {
    if i < j {
      FinishedStays(run, steps, e, i, j - 1);
    }
  }

  /** A call that begins while no engine runs does not return before there is a new one, to which the sender it returns
      belongs. */
  lemma DeadEngineIsReplaced(run: seq<Sys>, steps: seq<Step>, t: nat, i: nat, j: nat) returns (e: nat)
    requires Behaviour(run, steps) && InCall(run, t, i, j) && run[j].pcs[t].Returned?
    requires forall d: nat :: !Alive(run[i], d)
    ensures |run[i].engines| <= e < |run[j].engines| && run[j].engines[e].channel == run[j].pcs[t].sender
  {
    ReturnedSenderWasAlive(run, steps, t, i, j);
    var m: nat, d: nat :| i <= m <= j && Alive(run[m], d) && run[m].engines[d].channel == run[j].pcs[t].sender;
    FinishedStays(run, steps, d, i, m);
    FinishedStays(run, steps, d, m, j);
    ChannelsStay(run, steps, d, m, j);
    assert d < |run[i].engines| ==> !Alive(run[i], d);
    e := d;
  }

  // ----- no two engines share a channel

  /** The channel was made, but no engine has it yet. */
  predicate HasUnused(pc: Pc) { pc.WaitSenderWrite? || pc.WaitHandlerWrite? || pc.HoldBoth? }

  ghost predicate UnusedOk(s: Sys, t: nat)
    requires t in s.pcs
  {
    HasUnused(s.pcs[t]) ==>
      s.pcs[t].made < s.nextChannel && forall e: nat :: e < |s.engines| ==> s.engines[e].channel != s.pcs[t].made
  }

  ghost predicate UnusedDiffer(s: Sys, t: nat, u: nat)
    requires t in s.pcs && u in s.pcs
  {
    t != u && HasUnused(s.pcs[t]) && HasUnused(s.pcs[u]) ==> s.pcs[t].made != s.pcs[u].made
  }

  ghost predicate ChannelsDiffer(s: Sys) {
    && (forall e: nat :: e < |s.engines| ==> s.engines[e].channel < s.nextChannel)
    && (forall d: nat, e: nat :: d < e < |s.engines| ==> s.engines[d].channel != s.engines[e].channel)
    && (forall t <- s.pcs.Keys :: UnusedOk(s, t))
    && (forall t <- s.pcs.Keys, u <- s.pcs.Keys :: UnusedDiffer(s, t, u))
  }

  lemma StepKeepsChannels(s: Sys, step: Step)
    requires ChannelsDiffer(s) && Enabled(s, step)
    ensures ChannelsDiffer(Apply(s, step))
  {
    hide MayAdvance;
    var s' := Apply(s, step);
    if step.Advance? {
      assert UnusedOk(s, step.thread);
    }
    forall t <- s'.pcs.Keys ensures UnusedOk(s', t) {
      assert UnusedOk(s, t);
      assert step.Advance? ==> UnusedDiffer(s, t, step.thread);
    }
    forall t <- s'.pcs.Keys, u <- s'.pcs.Keys ensures UnusedDiffer(s', t, u) {
      assert UnusedDiffer(s, t, u) && UnusedOk(s, t) && UnusedOk(s, u);
    }
  }

  lemma {:induction false} ReachableChannelsDiffer(run: seq<Sys>, steps: seq<Step>, i: nat)
    requires Behaviour(run, steps) && i < |run|
    ensures ChannelsDiffer(run[i])
    decreases i
  {
    hide Enabled, Apply, ChannelsDiffer, Init;
    if i > 0 {
      ReachableChannelsDiffer(run, steps, i - 1);
      StepKeepsChannels(run[i - 1], steps[i - 1]);
    } else {
      InitChannels(run[0]);
    }
  }

  lemma InitChannels(s: Sys)
    requires Init(s)
    ensures ChannelsDiffer(s)
  {
  }

  /** In every state of every interleaving, a channel is that of one engine only. */
  lemma OneEnginePerChannel(run: seq<Sys>, steps: seq<Step>, i: nat, d: nat, e: nat)
    requires Behaviour(run, steps) && i < |run| && d < |run[i].engines| && e < |run[i].engines|
    requires run[i].engines[d].channel == run[i].engines[e].channel
    ensures d == e
  {
    ReachableChannelsDiffer(run, steps, i);
  }

  // ----- no deadlock

  /** Thread a may have to wait for thread b: b holds the lock a wants, or b is a writer that a reader may have to let
      pass. */
  predicate WaitsFor(pcs: map<nat, Pc>, a: nat, b: nat) {
    a in pcs && b in pcs &&
    match pcs[a]
    case WaitHandlerRead => WritesHandler(pcs[b]) || pcs[b].WaitHandlerWrite?
    case WaitSenderWrite(_) => WritesSender(pcs[b]) || ReadsSender(pcs[b])
    case WaitHandlerWrite(_) => WritesHandler(pcs[b]) || ReadsHandler(pcs[b])
    case WaitSenderRead => WritesSender(pcs[b]) || pcs[b].WaitSenderWrite?
    case _ => false
  }

  function Rank(pc: Pc): nat {
    match pc
    case WaitSenderRead => 4
    case WaitSenderWrite(_) => 3
    case WaitHandlerRead => 2
    case WaitHandlerWrite(_) => 1
    case _ => 0
  }

  /** The waits-for relation has no cycle: along a chain of waiting threads nobody comes up twice. */
  lemma {:induction false} WaitsForIsAcyclic(pcs: map<nat, Pc>, chain: seq<nat>)
    requires |chain| >= 2 && forall i :: 0 <= i < |chain| - 1 ==> WaitsFor(pcs, chain[i], chain[i + 1])
    ensures chain[0] in pcs && chain[|chain| - 1] in pcs && Rank(pcs[chain[0]]) > Rank(pcs[chain[|chain| - 1]])
    ensures chain[0] != chain[|chain| - 1]
    decreases |chain|
  {
    assert WaitsFor(pcs, chain[0], chain[1]);
    if |chain| > 2 {
      var rest := chain[1..];
      forall i | 0 <= i < |rest| - 1 ensures WaitsFor(pcs, rest[i], rest[i + 1]) {
        assert WaitsFor(pcs, chain[i + 1], chain[i + 1 + 1]);
      }
      WaitsForIsAcyclic(pcs, rest);
    }
  }

  predicate Busy(pc: Pc) { !pc.Idle? && !pc.Returned? }

  /** Nobody has to be waited for, whether or not a reader lets waiting writers pass. */
  ghost predicate Unhindered(pcs: map<nat, Pc>, t: nat) {
    t in pcs && forall u <- pcs.Keys :: !WaitsFor(pcs, t, u)
  }

  /** A lock that makes readers wait for waiting writers lets an unhindered thread go on, and so does one that does
      not. */
  predicate MayAdvanceBehindWriters(pcs: map<nat, Pc>, t: nat)
    requires t in pcs
  {
    MayAdvance(pcs, t)
    && (pcs[t].WaitHandlerRead? ==> forall u <- pcs.Keys :: !pcs[u].WaitHandlerWrite?)
    && (pcs[t].WaitSenderRead? ==> forall u <- pcs.Keys :: !pcs[u].WaitSenderWrite?)
  }

  lemma UnhinderedMayAdvance(pcs: map<nat, Pc>, t: nat)
    requires Unhindered(pcs, t)
    ensures MayAdvanceBehindWriters(pcs, t)
  {
  }

  /** While some call is under way, some call can go on, also if waiting writers hold readers up: following those that
      are waited for leads to one. */
  lemma {:induction false} SomeCallAdvances(pcs: map<nat, Pc>, t: nat) returns (u: nat)
    requires t in pcs && Busy(pcs[t])
    ensures u in pcs && Busy(pcs[u]) && MayAdvanceBehindWriters(pcs, u) && MayAdvance(pcs, u)
    decreases Rank(pcs[t])
  {
    if Unhindered(pcs, t) {
      UnhinderedMayAdvance(pcs, t);
      u := t;
    } else {
      var v :| v in pcs.Keys && WaitsFor(pcs, t, v);
      u := SomeCallAdvances(pcs, v);
    }
  }
}
