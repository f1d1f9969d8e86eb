/** The penalties on logits before sampling: for repeating a longer stretch of the context (DRY), and for frequency and
    presence. */
module Penalties {
  import opened Common

  type Token = nat

  /** Matches are not followed any further than this. */
  const MATCH_LIMIT: nat := 50

  datatype DryParams = DryParams(sequenceBreakers: set<Token>, multiplier: real, base: real, allowedLength: nat)

  function Pow(base: real, n: nat): real {
    if n == 0 then 1.0 else base * Pow(base, n - 1)
  }

  /** A power: as many factors as the exponent says. */
  lemma {:induction false} PowAdds(base: real, m: nat, n: nat)
    ensures Pow(base, 0) == 1.0 && Pow(base, 1) == base
    ensures Pow(base, m + n) == Pow(base, m) * Pow(base, n)
    decreases m
  {
    if m > 0 {
      PowAdds(base, m - 1, n);
      var a, b := Pow(base, m - 1), Pow(base, n);
      assert Pow(base, m + n) == base * Pow(base, m - 1 + n);
      assert base * (a * b) == base * a * b;
    }
  }

  // ----- how much of the end of the context stands before position i too

  /** The last m tokens also stand at the m places up to i, and none of them but the last token is a breaker. */
  ghost predicate Matches(context: seq<Token>, breakers: set<Token>, i: nat, m: nat)
    requires i < |context|
  {
    && 1 <= m <= MATCH_LIMIT && m <= i + 1
    && context[i + 1 - m..i + 1] == context[|context| - m..]
    && forall x <- context[|context| - m..|context| - 1] :: x !in breakers
  }

  /** The longest match at i; the loop that extends it token by token. */
  function Extend(context: seq<Token>, breakers: set<Token>, i: nat, m: nat): (len: nat)
    requires i < |context| - 1 && 1 <= m <= i + 1
    ensures m <= len <= i + 1
    decreases MATCH_LIMIT - m
  {
    if m < MATCH_LIMIT && m <= i && context[i - m] == context[|context| - (m + 1)] &&
       context[|context| - (m + 1)] !in breakers
    then Extend(context, breakers, i, m + 1)
    else m
  }

  function MatchLength(context: seq<Token>, breakers: set<Token>, i: nat): nat
    requires i < |context| - 1
  {
    Extend(context, breakers, i, 1)
  }

  /** A match of m + 1 tokens is one of m tokens with one more in front. */
  lemma MatchesOneMore(context: seq<Token>, breakers: set<Token>, i: nat, m: nat)
    requires i < |context| - 1 && m >= 1
    ensures Matches(context, breakers, i, m + 1) <==>
              Matches(context, breakers, i, m) && m < MATCH_LIMIT && m <= i &&
              context[i - m] == context[|context| - (m + 1)] && context[|context| - (m + 1)] !in breakers
  {
  }

  lemma {:induction false} ExtendIsMaximal(context: seq<Token>, breakers: set<Token>, i: nat, m: nat)
    requires i < |context| - 1 && Matches(context, breakers, i, m)
    ensures Matches(context, breakers, i, Extend(context, breakers, i, m))
    ensures !Matches(context, breakers, i, Extend(context, breakers, i, m) + 1)
    decreases MATCH_LIMIT - m
  {
    hide Matches;
    MatchIsLimited(context, breakers, i, m);
    MatchesOneMore(context, breakers, i, m);
    if Matches(context, breakers, i, m + 1) {
      ExtendIsMaximal(context, breakers, i, m + 1);
    }
  }

  lemma ShorterMatches(context: seq<Token>, breakers: set<Token>, i: nat, m: nat, k: nat)
    requires i < |context| - 1 && Matches(context, breakers, i, m) && 1 <= k <= m
    ensures Matches(context, breakers, i, k)
  {
  }

  lemma LastTokenMatches(context: seq<Token>, breakers: set<Token>, i: nat)
    requires i < |context| - 1 && context[i] == context[|context| - 1]
    ensures Matches(context, breakers, i, 1)
  {
  }

  /** Where the last token occurs, the loop finds the longest match: all shorter ones match, and no longer one does. */
  lemma MatchLengthIsLongest(context: seq<Token>, breakers: set<Token>, i: nat, m: nat)
    requires i < |context| - 1 && context[i] == context[|context| - 1]
    ensures Matches(context, breakers, i, m) <==> 1 <= m <= MatchLength(context, breakers, i)
  {
    hide Matches;
    var len := MatchLength(context, breakers, i);
    LastTokenMatches(context, breakers, i);
    MatchIsLimited(context, breakers, i, m);
    ExtendIsMaximal(context, breakers, i, 1);
    if Matches(context, breakers, i, m) && m > len {
      ShorterMatches(context, breakers, i, m, len + 1);
    }
    if 1 <= m <= len {
      ShorterMatches(context, breakers, i, len, m);
    }
  }

  // ----- the longest match that a next token would continue

  /** The last token occurs at i, and what follows it there is tok, which is no breaker. */
  predicate Occurs(context: seq<Token>, breakers: set<Token>, i: nat, tok: Token) {
    i + 1 < |context| && context[i] == context[|context| - 1] && context[i + 1] == tok && tok !in breakers
  }

  /** The longest match among the first n positions at which tok follows. */
  function LongestBefore(context: seq<Token>, breakers: set<Token>, tok: Token, n: nat): Option<nat>
    requires n < |context|
  {
    if n == 0 then None
    else
      var r := LongestBefore(context, breakers, tok, n - 1);
      if !Occurs(context, breakers, n - 1, tok) then r
      else
        var m := MatchLength(context, breakers, n - 1);
        Some(if r.Some? then Max(m, r.value) else m)
  }

  /** It is None when tok never follows there, and otherwise the largest match length, which some position attains. */
  lemma {:induction false} LongestBeforeIsMaximum(context: seq<Token>, breakers: set<Token>, tok: Token, n: nat)
    requires n < |context|
    ensures var r := LongestBefore(context, breakers, tok, n);
      (r.None? <==> forall i: nat :: i < n ==> !Occurs(context, breakers, i, tok)) &&
      (r.Some? ==>
         forall i: nat :: i < n && Occurs(context, breakers, i, tok) ==>
           MatchLength(context, breakers, i) <= r.value) &&
      (r.Some? ==>
         exists i: nat :: i < n && Occurs(context, breakers, i, tok) && MatchLength(context, breakers, i) == r.value)
    decreases n
  {
    hide MatchLength, Occurs;
    if n > 0 {
      LongestBeforeIsMaximum(context, breakers, tok, n - 1);
    }
  }

  function LongestMatch(context: seq<Token>, breakers: set<Token>, tok: Token): Option<nat>
    requires context != []
  {
    LongestBefore(context, breakers, tok, |context| - 1)
  }

  function LengthPenalty(params: DryParams, longest: Option<nat>): real {
    if longest.Some? && longest.value >= params.allowedLength
    then params.multiplier * Pow(params.base, longest.value - params.allowedLength)
    else 0.0
  }

  function DryPenalty(params: DryParams, context: seq<Token>, tok: Token): real
    requires context != []
  {
    LengthPenalty(params, LongestMatch(context, params.sequenceBreakers, tok))
  }

  ghost predicate StandsAt(context: seq<Token>, stretch: seq<Token>, start: nat) {
    start + |stretch| <= |context| && context[start..start + |stretch|] == stretch
  }

  ghost predicate Repeats(context: seq<Token>, stretch: seq<Token>) {
    exists start: nat :: StandsAt(context, stretch, start)
  }

  /** What the penalty is for: the longest match of tok reaches m exactly if the last m tokens followed by tok already
      stand earlier in the context, with no breaker among them but perhaps the last token of the context. */
  lemma LongestMatchMeansRepetition(context: seq<Token>, breakers: set<Token>, tok: Token, m: nat)
    requires 1 <= m < |context|
    ensures (LongestMatch(context, breakers, tok).Some? && LongestMatch(context, breakers, tok).value >= m) <==>
              m <= MATCH_LIMIT && tok !in breakers &&
              (forall x <- context[|context| - m..|context| - 1] :: x !in breakers) &&
              Repeats(context, context[|context| - m..] + [tok])
  {
    hide StandsAt, Matches, MatchLength, LongestBefore;
    var n, stretch := |context|, context[|context| - m..] + [tok];
    var longest := LongestMatch(context, breakers, tok);
    LongestBeforeIsMaximum(context, breakers, tok, n - 1);
    if longest.Some? && longest.value >= m {
      var i: nat :| i < n - 1 && Occurs(context, breakers, i, tok) &&
            MatchLength(context, breakers, i) == longest.value;
      MatchLengthIsLongest(context, breakers, i, m);
      MatchRepeats(context, breakers, tok, m, i);
      MatchIsLimited(context, breakers, i, m);
      assert StandsAt(context, stretch, i + 1 - m);
    } else if m <= MATCH_LIMIT && tok !in breakers && (forall x <- context[n - m..n - 1] :: x !in breakers) &&
              Repeats(context, stretch) {
      var start: nat :| StandsAt(context, stretch, start);
      RepetitionMatches(context, breakers, tok, m, start);
      var i := start + m - 1;
      MatchLengthIsLongest(context, breakers, i, m);
    }
  }

  /** The amount of the penalty: when exactly the last m tokens followed by tok already stand in the context, it is the
      multiplier times the base to the power of how far m exceeds the allowed length, or nothing if it does not reach
      it. */
  lemma PenaltyOfRepetition(params: DryParams, context: seq<Token>, tok: Token, m: nat)
    requires context != [] && LongestMatch(context, params.sequenceBreakers, tok) == Some(m)
    ensures m < params.allowedLength ==> DryPenalty(params, context, tok) == 0.0
    ensures m == params.allowedLength ==> DryPenalty(params, context, tok) == params.multiplier
    ensures m == params.allowedLength + 1 ==> DryPenalty(params, context, tok) == params.multiplier * params.base
    ensures m >= params.allowedLength ==>
              DryPenalty(params, context, tok) == params.multiplier * Pow(params.base, m - params.allowedLength)
  {
    PowAdds(params.base, 0, 0);
  }

  /** One more matched token multiplies the penalty by the base, once the allowed length is reached. */
  lemma LongerMatchCostsMore(params: DryParams, context: seq<Token>, longer: seq<Token>, tok: Token, m: nat)
    requires context != [] && longer != [] && m >= params.allowedLength
    requires LongestMatch(context, params.sequenceBreakers, tok) == Some(m)
    requires LongestMatch(longer, params.sequenceBreakers, tok) == Some(m + 1)
    ensures DryPenalty(params, longer, tok) == DryPenalty(params, context, tok) * params.base
  {
    hide LongestMatch;
    var n := m - params.allowedLength;
    var power := Pow(params.base, n);
    PowAdds(params.base, n, 1);
    assert params.multiplier * (power * params.base) == params.multiplier * power * params.base;
  }

  /** A token that never follows there costs nothing. */
  lemma NoMatchCostsNothing(params: DryParams, context: seq<Token>, tok: Token)
    requires context != [] && LongestMatch(context, params.sequenceBreakers, tok).None?
    ensures DryPenalty(params, context, tok) == 0.0
  {
    hide LongestMatch;
  }

  function Same(tok: Token, n: nat): (context: seq<Token>)
    ensures |context| == n && forall i :: 0 <= i < n ==> context[i] == tok
  {
    seq(n, _ => tok)
  }

  /** In a context of one token over and over, the match is all there is, up to fifty tokens. */
  lemma MatchIsCapped(tok: Token, n: nat)
    requires n >= 2
    ensures MatchLength(Same(tok, n), {}, n - 2) == if n - 1 <= 50 then n - 1 else 50
  {
    hide MatchLength, Matches;
    var context, len := Same(tok, n), if n - 1 <= 50 then n - 1 else 50;
    MatchLengthIsLongest(context, {}, n - 2, len);
    MatchLengthIsLongest(context, {}, n - 2, len + 1);
    MatchOfSame(tok, n, len);
    MatchOfSame(tok, n, len + 1);
  }

  lemma MatchOfSame(tok: Token, n: nat, m: nat)
    requires n >= 2
    ensures Matches(Same(tok, n), {}, n - 2, m) <==> 1 <= m <= 50 && m <= n - 1
  {
  }

  lemma MatchIsLimited(context: seq<Token>, breakers: set<Token>, i: nat, m: nat)
    requires i < |context|
    ensures Matches(context, breakers, i, m) ==> 1 <= m <= MATCH_LIMIT && m <= i + 1
  {
  }

  lemma MatchRepeats(context: seq<Token>, breakers: set<Token>, tok: Token, m: nat, i: nat)
    requires 1 <= m < |context| && i < |context| - 1 && context[i + 1] == tok && Matches(context, breakers, i, m)
    ensures StandsAt(context, context[|context| - m..] + [tok], i + 1 - m)
    ensures forall x <- context[|context| - m..|context| - 1] :: x !in breakers
  {
  }

  lemma RepetitionMatches(context: seq<Token>, breakers: set<Token>, tok: Token, m: nat, start: nat)
    requires 1 <= m < |context| && m <= MATCH_LIMIT && tok !in breakers
    requires forall x <- context[|context| - m..|context| - 1] :: x !in breakers
    requires StandsAt(context, context[|context| - m..] + [tok], start)
    ensures start + m < |context| && Occurs(context, breakers, start + m - 1, tok)
    ensures Matches(context, breakers, start + m - 1, m)
  {
    var n, last := |context|, context[|context| - m..];
    var both := context[start..start + m + 1];
    assert both == last + [tok];
    assert both[..m] == last && both[m] == tok && last[m - 1] == context[n - 1];
    assert forall k :: 0 <= k <= m ==> both[k] == context[start + k];
    assert context[start..start + m] == last;
  }

  // ----- the loops

  method FindMatchLength(context: seq<Token>, breakers: set<Token>, i: nat) returns (matchLength: nat)
    requires i < |context| - 1
    ensures matchLength == MatchLength(context, breakers, i)
  {
    matchLength := 1;
    while matchLength < MATCH_LIMIT
      invariant 1 <= matchLength <= i + 1
      invariant Extend(context, breakers, i, matchLength) == MatchLength(context, breakers, i)
      decreases MATCH_LIMIT - matchLength
    {
      if matchLength > i {
        break;
      }
      var j := i - matchLength;
      var prevTok := context[|context| - (matchLength + 1)];
      if context[j] != prevTok {
        break;
      }
      if prevTok in breakers {
        break;
      }
      matchLength := matchLength + 1;
    }
  }

  method FindMatchLengths(context: seq<Token>, breakers: set<Token>) returns (matchLengths: map<Token, nat>)
    requires context != []
    ensures forall tok ::
              LongestMatch(context, breakers, tok) == if tok in matchLengths then Some(matchLengths[tok]) else None
  {
    matchLengths := map[];
    for i := 0 to |context| - 1
      invariant forall tok ::
                  LongestBefore(context, breakers, tok, i) ==
                    if tok in matchLengths then Some(matchLengths[tok]) else None
    {
      if context[i] == context[|context| - 1] {
        var nextToken := context[i + 1];
        if nextToken in breakers {
          continue;
        }
        var matchLength := FindMatchLength(context, breakers, i);
        if nextToken in matchLengths {
          matchLengths := matchLengths[nextToken := Max(matchLength, matchLengths[nextToken])];
        } else {
          matchLengths := matchLengths[nextToken := matchLength];
        }
      }
    }
  }

  ghost function DryPenalties(params: DryParams, context: seq<Token>, n: nat): (r: seq<real>)
    requires context != []
    ensures |r| == n && forall t :: 0 <= t < n ==> r[t] == DryPenalty(params, context, t)
  {
    seq(n, t requires 0 <= t => DryPenalty(params, context, t))
  }

  /** Each logit loses its penalty, once, in whatever order the map of match lengths is iterated. */
  method ApplyDryPenalty(logits: array<real>, context: seq<Token>, dryParams: Option<DryParams>)
    requires context != []
    modifies logits
    ensures forall t :: 0 <= t < logits.Length ==>
              logits[t] == old(logits[t]) - if dryParams.Some? then DryPenalty(dryParams.value, context, t) else 0.0
  {
    if dryParams.None? {
      return;
    }
    var params := dryParams.value;
    if params.multiplier == 0.0 {
      return;
    }
    var matchLengths := FindMatchLengths(context, params.sequenceBreakers);
    ApplyMatchLengths(logits, context, params, matchLengths);
  }

  method ApplyMatchLengths(logits: array<real>, ghost context: seq<Token>, params: DryParams,
                           matchLengths: map<Token, nat>)
    requires context != []
    requires forall tok :: LongestMatch(context, params.sequenceBreakers, tok) ==
                             if tok in matchLengths then Some(matchLengths[tok]) else None
    modifies logits
    ensures forall t :: 0 <= t < logits.Length ==> logits[t] == old(logits[t]) - DryPenalty(params, context, t)
  {
    hide LongestMatch, LengthPenalty, Pow, DryPenalty;
    ghost var penalties := DryPenalties(params, context, logits.Length);
    var remaining: set<Token> := matchLengths.Keys;
    forall t: nat | t < logits.Length && t !in matchLengths ensures penalties[t] == 0.0 {
      PenaltyFromMap(params, context, matchLengths, t);
    }
    while remaining != {}
      invariant remaining <= matchLengths.Keys
      invariant forall t :: 0 <= t < logits.Length ==>
                  logits[t] == old(logits[t]) - if t in remaining then 0.0 else penalties[t]
    {
      var tok: Token :| tok in remaining;
      PenaltyFromMap(params, context, matchLengths, tok);
      remaining := remaining - {tok};
      var matchLen := matchLengths[tok];
      if matchLen >= params.allowedLength {
        if tok >= logits.Length {
          continue;
        }
        var penalty := params.multiplier * Pow(params.base, matchLen - params.allowedLength);
        logits[tok] := logits[tok] - penalty;
      }
    }
  }

  lemma PenaltyFromMap(params: DryParams, context: seq<Token>, matchLengths: map<Token, nat>, tok: Token)
    requires context != []
    requires LongestMatch(context, params.sequenceBreakers, tok) ==
               if tok in matchLengths then Some(matchLengths[tok]) else None
    ensures DryPenalty(params, context, tok)
         == if tok in matchLengths && matchLengths[tok] >= params.allowedLength
            then params.multiplier * Pow(params.base, matchLengths[tok] - params.allowedLength) else 0.0
  {
  }

  // ----- frequency and presence

  function CountPenalty(count: nat, frequency: real, presence: real): real {
    count as real * frequency + if count > 0 then presence else 0.0
  }

  /** How often each token of the vocabulary occurs; tokens outside of it are passed over. */
  method CountTokens(context: seq<Token>, vocabulary: nat) returns (counts: array<nat>)
    ensures counts.Length == vocabulary && fresh(counts)
    ensures forall t :: 0 <= t < vocabulary ==> counts[t] == multiset(context)[t]
  {
    counts := new nat[vocabulary](_ => 0);
    for i := 0 to |context|
      invariant forall t :: 0 <= t < vocabulary ==> counts[t] == multiset(context[..i])[t]
    {
      assert context[..i + 1] == context[..i] + [context[i]];
      if context[i] >= vocabulary {
        continue;
      }
      counts[context[i]] := counts[context[i]] + 1;
    }
    assert context[..|context|] == context;
  }

  lemma CountPenaltyTaken(logit: real, count: nat, frequency: real, presence: real)
    ensures logit - count as real * frequency - (if count > 0 then presence else 0.0)
              == logit - CountPenalty(count, frequency, presence)
  {
  }

  function ValueOr0(x: Option<real>): real {
    if x.Some? then x.value else 0.0
  }

  lemma NoCountPenalty(count: nat)
    ensures CountPenalty(count, 0.0, 0.0) == 0.0
  {
  }

  /** The frequency penalty for every occurrence, and the presence penalty once if there is one; a penalty that is not
      asked for is nothing. */
  lemma CountPenaltyMeans(count: nat, frequency: Option<real>, presence: Option<real>)
    ensures CountPenalty(count, ValueOr0(frequency), ValueOr0(presence)) ==
              (match frequency case Some(f) => count as real * f case None => 0.0) +
              (match presence case Some(p) => (if count > 0 then p else 0.0) case None => 0.0)
  {
    if frequency.None? {
      assert count as real * 0.0 == 0.0;
    }
  }

  method ApplyFreqPrescPenalty(logits: array<real>, context: seq<Token>, frequencyPenalty: Option<real>,
                               presencePenalty: Option<real>)
    modifies logits
    ensures forall t :: 0 <= t < logits.Length ==>
              logits[t]
                == old(logits[t]) - CountPenalty(multiset(context)[t], ValueOr0(frequencyPenalty),
                                                 ValueOr0(presencePenalty))
  {
    hide CountPenalty;
    if frequencyPenalty.Some? || presencePenalty.Some? {
      var frequency, presence := ValueOr0(frequencyPenalty), ValueOr0(presencePenalty);
      var counts := CountTokens(context, logits.Length);
      for tokenId := 0 to logits.Length
        invariant forall t :: 0 <= t < logits.Length ==>
                    logits[t] ==
                      if t < tokenId then old(logits[t]) - CountPenalty(multiset(context)[t], frequency, presence)
                      else old(logits[t])
        invariant forall t :: 0 <= t < counts.Length ==> counts[t] == multiset(context)[t]
      {
        var count := counts[tokenId];
        CountPenaltyTaken(logits[tokenId], count, frequency, presence);
        logits[tokenId] := logits[tokenId] - count as real * frequency - if count > 0 then presence else 0.0;
      }
    } else {
      forall t | 0 <= t < logits.Length ensures CountPenalty(multiset(context)[t], 0.0, 0.0) == 0.0 {
        NoCountPenalty(multiset(context)[t]);
      }
    }
  }

  datatype PenaltyError = EmptyContext

  /** Both penalties, each added up from the original context; without a context nothing is changed. */
  method ApplyPenalties(logits: array<real>, context: seq<Token>, dryParams: Option<DryParams>,
                        frequencyPenalty: Option<real>, presencePenalty: Option<real>)
    returns (r: Result<(), PenaltyError>)
    modifies logits
    ensures r.Err? <==> context == []
    ensures r.Err? ==> logits[..] == old(logits[..])
    ensures r.Ok? ==> forall t :: 0 <= t < logits.Length ==>
              logits[t] == old(logits[t])
                           - (if dryParams.Some? then DryPenalty(dryParams.value, context, t) else 0.0)
                           - CountPenalty(multiset(context)[t], ValueOr0(frequencyPenalty), ValueOr0(presencePenalty))
  {
    if context == [] {
      return Err(EmptyContext);
    }
    hide CountPenalty, DryPenalty;
    ApplyDryPenalty(logits, context, dryParams);
    ApplyFreqPrescPenalty(logits, context, frequencyPenalty, presencePenalty);
    return Ok(());
  }
}
