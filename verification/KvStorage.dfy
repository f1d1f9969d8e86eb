/** The storage behind a cached key or value tensor. It is written in place, and a clone of a cache shares it: what the
    prefix cache stores may change when a request reuses it on the device where it already is. */
module KvStorage {
  import opened Common
  import opened CausalMasker
  import opened PrefixCacher
  import opened PrefixReuse

  /** The number of tokens to grow a cache by. */
  const CACHE_GROW_SIZE: nat := 512

  /** The failure to grow beyond the maximum, and that of writing beyond the storage. */
  datatype AppendError = AboveMaxSeqLen | OutsideStorage

  function Steps(missing: nat): (steps: nat)
    ensures missing <= steps * CACHE_GROW_SIZE < missing + CACHE_GROW_SIZE
  {
    (missing + CACHE_GROW_SIZE - 1) / CACHE_GROW_SIZE
  }

  function GrownCapacity(capacity: nat, needed: nat): (grown: nat)
    ensures needed <= capacity ==> grown == capacity
    ensures needed > capacity ==> needed <= grown < needed + CACHE_GROW_SIZE
  {
    if needed <= capacity then capacity else capacity + Steps(needed - capacity) * CACHE_GROW_SIZE
  }

  /** Values written over a sequence from a position on, as far as it reaches. */
  function Overlaid<E>(s: seq<E>, at: nat, more: seq<E>): (r: seq<E>)
    ensures |r| == |s|
    ensures forall i :: 0 <= i < |s| ==> r[i] == if at <= i < at + |more| then more[i - at] else s[i]
  {
    seq(|s|, i requires 0 <= i < |s| => if at <= i < at + |more| then more[i - at] else s[i])
  }

  /** Values that are written over leave a sequence as it is exactly if they equal what stands there. */
  lemma OverlaidUnchanged<E>(s: seq<E>, at: nat, more: seq<E>)
    ensures Overlaid(s, at, more) == s <==> forall i :: at <= i < |s| && i < at + |more| ==> s[i] == more[i - at]
  {
    if Overlaid(s, at, more) == s {
      assert forall i :: 0 <= i < |s| ==> Overlaid(s, at, more)[i] == s[i];
    }
  }

  // ----- a run of appends on one storage

  function Concat<E>(appends: seq<seq<E>>): seq<E> {
    if appends == [] then [] else appends[0] + Concat(appends[1..])
  }

  /** How many of the values are written in place: those of the appends before the first one that there is no room
      for. */
  function InPlaceCount<E>(appends: seq<seq<E>>, room: nat): (n: nat)
    ensures n <= room && n <= |Concat(appends)|
  {
    if appends == [] || |appends[0]| > room then 0
    else
      assert |Concat(appends)| == |appends[0]| + |Concat(appends[1..])|;
      |appends[0]| + InPlaceCount(appends[1..], room - |appends[0]|)
  }

  /** Where the first append stands that is not empty. */
  function FirstNonEmpty<E>(appends: seq<seq<E>>): (k: nat)
    ensures k <= |appends| && (forall j :: 0 <= j < k ==> appends[j] == []) && (k < |appends| ==> appends[k] != [])
  {
    if appends == [] || appends[0] != [] then 0 else 1 + FirstNonEmpty(appends[1..])
  }

  /** Nothing is written in place exactly if the first append that is not empty does not fit, or there is none. */
  lemma {:induction false} NothingInPlace<E>(appends: seq<seq<E>>, room: nat)
    ensures InPlaceCount(appends, room) == 0 <==>
              FirstNonEmpty(appends) == |appends| || |appends[FirstNonEmpty(appends)]| > room
    decreases |appends|
  {
    if appends != [] && appends[0] == [] {
      NothingInPlace(appends[1..], room);
    }
  }

  lemma ConcatNothing<E>(appends: seq<seq<E>>)
    ensures Concat(appends[..0]) == []
    ensures appends == [] ==> Concat(appends) == []
  {
  }

  lemma ConcatStep<E>(appends: seq<seq<E>>)
    requires appends != []
    ensures |Concat(appends)| == |appends[0]| + |Concat(appends[1..])|
  {
  }

  lemma ConcatPrefix<E>(appends: seq<seq<E>>, n: nat)
    requires n < |appends|
    ensures Concat(appends[..n + 1]) == appends[0] + Concat(appends[1..][..n])
  {
    assert appends[..n + 1][1..] == appends[1..][..n];
  }

  lemma OverlaidExtends<E>(s: seq<E>, at: nat, more: seq<E>)
    requires at + |more| <= |s|
    ensures Overlaid(s, at, more)[..at + |more|] == s[..at] + more
  {
  }

  lemma OverlaidTwice<E>(s: seq<E>, at: nat, a: seq<E>, b: seq<E>)
    ensures Overlaid(Overlaid(s, at, a), at + |a|, b) == Overlaid(s, at, a + b)
    ensures Overlaid(s, at, []) == s
  {
  }

  /** What a run of appends from a position on makes of storage that has the given room there. */
  ghost predicate WrittenInPlace<E>(before: seq<E>, at: nat, appends: seq<seq<E>>, room: nat, after: seq<E>) {
    after == Overlaid(before, at, Concat(appends)[..InPlaceCount(appends, room)])
  }

  lemma WrittenNothing<E>(data: seq<E>, at: nat, appends: seq<seq<E>>, room: nat)
    requires appends == [] || |appends[0]| > room
    ensures WrittenInPlace(data, at, appends, room, data)
  {
    OverlaidTwice(data, at, [], []);
  }

  lemma WrittenStep<E>(data: seq<E>, at: nat, appends: seq<seq<E>>, room: nat, next: seq<E>, nextRoom: nat,
                       after: seq<E>)
    requires appends != [] && next == Overlaid(data, at, appends[0]) && nextRoom == room - |appends[0]|
    ensures WrittenInPlace(next, at + |appends[0]|, appends[1..], nextRoom, after) ==>
              WrittenInPlace(data, at, appends, room, after)
  {
    var n := InPlaceCount(appends[1..], nextRoom);
    OverlaidTwice(data, at, appends[0], Concat(appends[1..])[..n]);
    assert Concat(appends)[..|appends[0]| + n] == appends[0] + Concat(appends[1..])[..n];
  }

  /** Whether the capacity suffices, or can be made to. */
  predicate FitsOrGrows(capacity: nat, needed: nat, maxSeqLen: nat) {
    needed <= capacity || GrownCapacity(capacity, needed) <= maxSeqLen
  }

  /** It grows by whole steps. */
  lemma GrownByWholeSteps(capacity: nat, needed: nat)
    ensures GrownCapacity(capacity, needed) >= capacity
    ensures (GrownCapacity(capacity, needed) - capacity) % CACHE_GROW_SIZE == 0 && CACHE_GROW_SIZE == 512
  {
  }

  /** Growing in several steps comes to the same as growing once. */
  lemma GrownTwice(capacity: nat, first: nat, second: nat)
    requires first <= second
    ensures GrownCapacity(GrownCapacity(capacity, first), second) == GrownCapacity(capacity, second)
    ensures GrownCapacity(capacity, first) <= GrownCapacity(capacity, second)
  {
    hide Steps;
  }

  lemma FitsAlready(capacity: nat, needed: nat, maxSeqLen: nat)
    requires needed <= capacity
    ensures FitsOrGrows(capacity, needed, maxSeqLen)
  {
  }

  /** All appends succeed exactly if the first one does and then the others do. */
  lemma FitsTwice(capacity: nat, first: nat, all: nat, maxSeqLen: nat)
    requires first <= all
    ensures FitsOrGrows(capacity, first, maxSeqLen) <==>
              first <= capacity || GrownCapacity(capacity, first) <= maxSeqLen
    ensures FitsOrGrows(capacity, all, maxSeqLen) <==>
              FitsOrGrows(capacity, first, maxSeqLen) && FitsOrGrows(GrownCapacity(capacity, first), all, maxSeqLen)
  {
    GrownTwice(capacity, first, all);
    hide GrownCapacity;
  }

  /** A single cache, of keys or of values in one layer, as a handle on its storage. */
  class Storage<E> {
    var allData: array?<E>
    var currentSeqLen: nat
    var capacitySeqLen: nat
    const maxSeqLen: nat

    /** A failed growth has raised the capacity, but not the storage. */
    ghost predicate Valid()
      reads this
    {
      if allData == null then currentSeqLen == 0 else currentSeqLen <= allData.Length <= capacitySeqLen
    }

    ghost function Contents(): (s: seq<E>)
      reads this, allData
      requires Valid()
      ensures |s| == currentSeqLen
    {
      if allData == null then [] else allData[..currentSeqLen]
    }

    /** The cache as a value, with whatever is stale behind its length. */
    ghost function AsValue(): (c: SingleCache<E>)
      reads this, allData
      requires Valid()
      ensures Holds(c) && Current(c) == Contents() && c.currentSeqLen == currentSeqLen
    {
      SingleCache(if allData == null then None else Some(Tensor(allData[..], Cpu)), currentSeqLen)
    }

    /** Whether more tokens are written into the storage as it is. */
    ghost predicate InPlace(more: nat)
      reads this
    {
      allData != null && currentSeqLen + more <= capacitySeqLen
    }

    /** No growth has failed. */
    ghost predicate Intact()
      reads this
    {
      allData != null ==> allData.Length == capacitySeqLen
    }

    /** How much can be written into the storage as it is, behind a position. */
    ghost function Room(at: nat): nat
      reads this
    {
      if allData == null then 0 else Max(allData.Length - at, 0)
    }

    constructor (maxSeqLen: nat, capacitySeqLen: nat)
      ensures Valid() && allData == null && Contents() == []
      ensures this.maxSeqLen == maxSeqLen && this.capacitySeqLen == capacitySeqLen
    {
      this.maxSeqLen, this.capacitySeqLen := maxSeqLen, capacitySeqLen;
      allData, currentSeqLen := null, 0;
    }

    /** A handle on the same storage. */
    constructor Clone(other: Storage<E>)
      requires other.Valid()
      ensures Valid() && allData == other.allData && currentSeqLen == other.currentSeqLen
      ensures capacitySeqLen == other.capacitySeqLen && maxSeqLen == other.maxSeqLen
    {
      allData, currentSeqLen, capacitySeqLen, maxSeqLen :=
        other.allData, other.currentSeqLen, other.capacitySeqLen, other.maxSeqLen;
    }

    method SetLen(len: nat)
      requires Valid() && len <= currentSeqLen
      modifies this`currentSeqLen
      ensures Valid() && Contents() == old(Contents())[..len]
    {
      currentSeqLen := len;
    }

    /** Storage of the current capacity with a copy of the old one in front. */
    method Reallocate(zero: E)
      requires allData != null ==> currentSeqLen <= allData.Length <= capacitySeqLen
      requires allData == null ==> currentSeqLen == 0
      modifies this`allData
      ensures Valid() && Contents() == old(Contents()) && allData != null && fresh(allData)
      ensures allData.Length == capacitySeqLen
    {
      var grown := new E[capacitySeqLen](_ => zero);
      if allData != null {
        for i := 0 to allData.Length
          invariant allData == old(allData) && grown[..i] == allData[..i]
        {
          grown[i] := allData[i];
        }
        assert grown[..currentSeqLen] == grown[..allData.Length][..currentSeqLen];
      }
      allData := grown;
    }

    /** Writes in place behind the current length. */
    method SliceSet(src: seq<E>)
      requires allData != null && Valid() && currentSeqLen + |src| <= allData.Length
      modifies allData
      ensures Contents() == old(Contents())
      ensures allData[..] == Overlaid(old(allData[..]), currentSeqLen, src)
    {
      for i := 0 to |src|
        invariant forall j :: 0 <= j < allData.Length ==>
                    allData[j] ==
                      if currentSeqLen <= j < currentSeqLen + i then src[j - currentSeqLen] else old(allData[j])
      {
        allData[currentSeqLen + i] := src[i];
      }
    }

    /** Allocates what is missing, and grows by whole steps. */
    method MakeRoom(more: nat, zero: E) returns (ok: bool)
      requires Valid()
      modifies this`allData, this`capacitySeqLen
      ensures Valid() && Contents() == old(Contents()) && allData != null
      ensures capacitySeqLen == GrownCapacity(old(capacitySeqLen), currentSeqLen + more)
      ensures ok <==> currentSeqLen + more <= old(capacitySeqLen) || capacitySeqLen <= maxSeqLen
      ensures if old(allData) != null && (!ok || old(InPlace(more))) then allData == old(allData) else fresh(allData)
      ensures if ok then fresh(allData) ==> allData.Length == capacitySeqLen else currentSeqLen + more > allData.Length
    {
      if allData == null {
        Reallocate(zero);
      }
      if currentSeqLen + more > capacitySeqLen {
        capacitySeqLen := GrownCapacity(capacitySeqLen, currentSeqLen + more);
        if capacitySeqLen > maxSeqLen {
          return false;
        }
        Reallocate(zero);
      }
      return true;
    }

    method Append(src: seq<E>, zero: E) returns (r: Result<(), AppendError>)
      requires Valid()
      modifies this, allData
      ensures Valid() && capacitySeqLen == GrownCapacity(old(capacitySeqLen), old(currentSeqLen) + |src|)
      ensures r.Ok? <==>
                if old(currentSeqLen) + |src| <= old(capacitySeqLen)
                then old(allData) != null ==> old(currentSeqLen) + |src| <= old(allData).Length
                else capacitySeqLen <= maxSeqLen
      ensures Contents() == old(Contents()) + if r.Ok? then src else []
      ensures r.Err? ==> allData != null && currentSeqLen + |src| > allData.Length
      ensures old(Intact()) && r.Ok? ==> Intact()
      ensures r.Ok? && old(InPlace(|src|)) ==>
                allData == old(allData) && allData[..] == Overlaid(old(allData[..]), old(currentSeqLen), src)
      ensures r.Ok? && !old(InPlace(|src|)) ==> allData != null && fresh(allData)
      ensures old(allData) != null && !(r.Ok? && old(InPlace(|src|))) ==> old(allData)[..] == old(allData[..])
    {
      var ok := MakeRoom(|src|, zero);
      if !ok {
        return Err(AboveMaxSeqLen);
      }
      if currentSeqLen + |src| > allData.Length {
        return Err(OutsideStorage);
      }
      hide GrownCapacity, Overlaid;
      OverlaidExtends(allData[..], currentSeqLen, src);
      SliceSet(src);
      currentSeqLen := currentSeqLen + |src|;
      return Ok(());
    }

    /** One append after another, until one fails for lack of room. The storage of before is written over by the appends
        before the first one that it has no room for, and by nothing from there on. */
    method AppendAll(appends: seq<seq<E>>, zero: E) returns (r: Result<(), AppendError>, done: nat)
      requires Valid()
      modifies this, allData
      ensures Valid() && done <= |appends| && (r.Ok? <==> done == |appends|)
      ensures Contents() == old(Contents()) + Concat(appends[..done])
      ensures r.Err? ==> allData != null && currentSeqLen + |appends[done]| > allData.Length
      ensures old(Intact()) ==>
                (r.Ok? <==> FitsOrGrows(old(capacitySeqLen), old(currentSeqLen) + |Concat(appends)|, maxSeqLen))
      ensures old(allData) != null ==>
                WrittenInPlace(old(allData[..]), old(currentSeqLen), appends, old(Room(currentSeqLen)),
                               old(allData)[..])
      decreases |appends|
    {
      hide GrownCapacity, Concat, InPlaceCount, Overlaid, WrittenInPlace, FitsOrGrows;
      ghost var data := if allData == null then [] else allData[..];
      ConcatNothing(appends);
      if appends == [] {
        WrittenNothing(data, currentSeqLen, appends, Room(currentSeqLen));
        FitsAlready(capacitySeqLen, currentSeqLen, maxSeqLen);
        return Ok(()), 0;
      }
      ghost var at, room, capacity := currentSeqLen, Room(currentSeqLen), capacitySeqLen;
      ConcatStep(appends);
      FitsTwice(capacity, at + |appends[0]|, at + |Concat(appends)|, maxSeqLen);
      r := Append(appends[0], zero);
      if old(allData) != null && (r.Err? || allData != old(allData)) {
        WrittenNothing(data, at, appends, room);
      }
      if r.Err? {
        return r, 0;
      }
      ghost var next, nextRoom := allData[..], Room(currentSeqLen);
      r, done := AppendAll(appends[1..], zero);
      if old(allData) != null && next == Overlaid(data, at, appends[0]) && nextRoom == room - |appends[0]| {
        WrittenStep(data, at, appends, room, next, nextRoom, old(allData)[..]);
      }
      ConcatPrefix(appends, done);
      done := done + 1;
    }

    /** A cache on another device has storage of its own; on the same device it keeps what it has. */
    method ToDevice(sameDevice: bool, zero: E)
      requires Valid()
      modifies this`allData
      ensures Valid() && Contents() == old(Contents())
      ensures if sameDevice || old(allData) == null then allData == old(allData) else allData != null && fresh(allData)
      ensures allData != null ==> old(allData) != null && allData.Length == old(allData).Length
    {
      if !sameDevice && allData != null {
        var data := allData;
        var copy := new E[data.Length](i requires 0 <= i < data.Length reads data => data[i]);
        assert copy[..currentSeqLen] == data[..currentSeqLen];
        allData := copy;
      }
    }
  }

  /** A stored cache is matched, moved to the device of the model, shortened, and extended by one append after another
      until one fails. The reused cache is what it should be. Without a copy the stored one is written over, by the
      appends before the first one that its storage has no room for, and by nothing from there on; it stays as it is
      exactly if there is a copy or what is written equals what stood there. */
  method Reuse<E>(stored: Storage<E>, sameDevice: bool, len: nat, appends: seq<seq<E>>, zero: E)
    returns (reused: Storage<E>, r: Result<(), AppendError>, done: nat)
    requires stored.Valid() && len <= stored.currentSeqLen
    modifies stored.allData
    ensures stored.Valid() && reused.Valid() && fresh(reused)
    ensures done <= |appends| && (r.Ok? <==> done == |appends|)
    ensures reused.Contents() == old(stored.Contents())[..len] + Concat(appends[..done])
    ensures stored.Intact() ==>
              (r.Ok? <==> FitsOrGrows(stored.capacitySeqLen, len + |Concat(appends)|, stored.maxSeqLen))
    ensures var written := WrittenTo(sameDevice, appends, stored.Room(len));
            stored.Contents() == Overlaid(old(stored.Contents()), len, written) &&
            (stored.Contents() == old(stored.Contents()) <==>
               forall i :: len <= i < stored.currentSeqLen && i < len + |written| ==>
                 old(stored.Contents())[i] == written[i - len])
  {
    hide GrownCapacity, Concat, InPlaceCount, Overlaid, FitsOrGrows;
    ghost var contents, room := stored.Contents(), stored.Room(len);
    ghost var written := WrittenTo(sameDevice, appends, room);
    OverlaidUnchanged(contents, len, written);
    OverlaidTwice(contents, len, [], []);
    if stored.allData != null {
      OverlaidPrefix(stored.allData[..], stored.currentSeqLen, len, written);
    }
    reused := new Storage<E>.Clone(stored);
    reused.ToDevice(sameDevice, zero);
    reused.SetLen(len);
    r, done := reused.AppendAll(appends, zero);
  }

  /** What is written into the stored cache. */
  ghost function WrittenTo<E>(sameDevice: bool, appends: seq<seq<E>>, room: nat): seq<E> {
    if sameDevice then Concat(appends)[..InPlaceCount(appends, room)] else []
  }

  lemma OverlaidPrefix<E>(s: seq<E>, n: nat, at: nat, more: seq<E>)
    ensures n <= |s| ==> Overlaid(s, at, more)[..n] == Overlaid(s[..n], at, more)
  {
  }

  // ----- when a stored cache survives being shared

  /** What running the text from scratch writes, layer by layer. */
  ghost function ScratchEntries<H, E>(model: Transformer<H, E>, toks: Tokens): (r: seq<seq<(E, E)>>)
    requires |model.layers| > 0
    ensures |r| == |model.layers| && forall i :: 0 <= i < |r| ==> |r[i]| == |toks|
  {
    var caches := Scratch(model, toks).1;
    assert forall i :: 0 <= i < |caches| ==> Ready(caches[i], |toks|);
    AllEntries(caches)
  }

  /** The first entries of every layer, after n other entries were written over it from a position on. */
  ghost function OverlaidLayers<E>(stored: seq<seq<E>>, at: nat, written: seq<seq<E>>, n: nat,
                                   offset: nat): (r: seq<seq<E>>)
    requires |stored| == |written| && forall i :: 0 <= i < |stored| ==> offset <= |stored[i]| && at + n <= |written[i]|
    ensures |r| == |stored| && forall i :: 0 <= i < |r| ==> |r[i]| == offset
    ensures forall i, j :: 0 <= i < |r| && 0 <= j < offset ==>
              r[i][j] == if at <= j < at + n then written[i][j] else stored[i][j]
  {
    seq(|stored|, i requires 0 <= i < |stored| => Overlaid(stored[i], at, written[i][at..at + n])[..offset])
  }

  /** What a match of the given length finds in the stored entries of a covered text, after another text was run on them
      from a position on and n of its entries were written in place. */
  ghost function SharedEntries<H, E>(model: Transformer<H, E>, covered: Tokens, at: nat, toks: Tokens, n: nat,
                                     offset: nat): seq<seq<(E, E)>>
    requires |model.layers| > 0 && at + n <= |toks| && offset <= |covered|
  {
    OverlaidLayers(ScratchEntries(model, covered), at, ScratchEntries(model, toks), n, offset)
  }

  /** This is what a reuse leaves of the stored cache of a layer, if the text is appended in whatever portions. */
  lemma ReuseLeavesShared<H, E>(model: Transformer<H, E>, covered: Tokens, at: nat, toks: Tokens,
                                appends: seq<seq<(E, E)>>, room: nat, offset: nat, i: nat)
    requires |model.layers| > 0 && i < |model.layers| && at <= |toks| && offset <= |covered|
    requires Concat(appends) == ScratchEntries(model, toks)[i][at..]
    ensures var n := InPlaceCount(appends, room);
            at + n <= |toks| &&
            Overlaid(ScratchEntries(model, covered)[i], at, WrittenTo(true, appends, room))[..offset]
              == SharedEntries(model, covered, at, toks, n, offset)[i]
  {
    hide ScratchEntries, InPlaceCount, Concat, Overlaid;
    var n := InPlaceCount(appends, room);
    var written := ScratchEntries(model, toks)[i];
    assert written[at..][..n] == written[at..at + n];
  }

  predicate OneContinuesTheOther(a: Tokens, b: Tokens) { a <= b || b <= a }

  /** Whatever the model: a match still finds what running its part of the covered text writes, if that part and the
      text up to the last entry written in place continue one another. */
  lemma SharingSurvives<H, E>(model: Transformer<H, E>, covered: Tokens, at: nat, toks: Tokens, n: nat, offset: nat)
    requires |model.layers| > 0 && at + n <= |toks| && offset <= |covered|
    requires OneContinuesTheOther(covered[..offset], toks[..at + n])
    ensures SharedEntries(model, covered, at, toks, n, offset) == ScratchEntries(model, covered[..offset])
  {
    hide ScratchEntries, OverlaidLayers;
    var matched, m := covered[..offset], Min(offset, at + n);
    assert matched[..m] == toks[..at + n][..m] == toks[..m];
    assert matched + covered[offset..] == covered;
    assert toks[..m] + toks[m..] == toks && matched[..m] + matched[m..] == matched;
    EntriesOfBeginning(model, matched, covered[offset..]);
    EntriesOfBeginning(model, matched[..m], matched[m..]);
    EntriesOfBeginning(model, toks[..m], toks[m..]);
    var found, wanted := SharedEntries(model, covered, at, toks, n, offset), ScratchEntries(model, matched);
    var stored, written := ScratchEntries(model, covered), ScratchEntries(model, toks);
    forall i | 0 <= i < |model.layers| ensures found[i] == wanted[i] {
      assert wanted[i] == stored[i][..offset] && wanted[i][..m] == written[i][..m];
      assert forall j :: 0 <= j < m ==> wanted[i][..m][j] == wanted[i][j] && written[i][..m][j] == written[i][j];
    }
  }

  lemma EntriesOfBeginning<H, E>(model: Transformer<H, E>, first: Tokens, rest: Tokens)
    requires |model.layers| > 0
    ensures forall i :: 0 <= i < |model.layers| ==>
              ScratchEntries(model, first + rest)[i][..|first|] == ScratchEntries(model, first)[i]
  {
    hide Forward, Embedded;
    var caches := Scratch(model, first).1;
    ReuseEqualsScratch(model, caches, first, rest);
    forall i | 0 <= i < |model.layers|
      ensures ScratchEntries(model, first + rest)[i][..|first|] == ScratchEntries(model, first)[i]
    {
      assert Cut(AllEntries(Scratch(model, first + rest).1), |first|)[i] == AllEntries(caches)[i];
    }
  }

  lemma SharedPrefixIsLongest(a: Tokens, b: Tokens, m: nat)
    requires m <= |a| && m <= |b| && a[..m] == b[..m]
    ensures m <= SharedPrefix(a, b)
  {
  }

  lemma SharedPrefixIs(a: Tokens, b: Tokens, m: nat)
    requires m <= |a| && m <= |b| && a[..m] == b[..m] && (m < |a| && m < |b| ==> a[m] != b[m])
    ensures SharedPrefix(a, b) == m
  {
    hide SharedPrefix;
    SharedPrefixIsLongest(a, b, m);
  }

  lemma AgreeBefore(a: Tokens, b: Tokens, m: nat)
    requires m <= SharedPrefix(a, b)
    ensures m <= |a| && m <= |b| && a[..m] == b[..m]
  {
    var n := SharedPrefix(a, b);
    assert a[..m] == a[..n][..m] && b[..m] == b[..n][..m];
  }

  /** The model of one layer whose entries are the tokens. */
  function Echo(): Transformer<Token, Token> {
    Transformer((t, p) => t, [Layer(Cpu, (h, p) => h, (h, p) => h, (h, p, m) => h)])
  }

  lemma EchoEntries(toks: Tokens)
    ensures forall j :: 0 <= j < |toks| ==> ScratchEntries(Echo(), toks)[0][j] == (toks[j], toks[j])
  {
    var empty := EmptyCaches(1);
    var layer, hs := Echo().layers[0], Embedded(Echo(), toks, 0);
    assert Ready(empty[0], 0);
    assert Scratch(Echo(), toks).1[0] == LayerCache(layer, empty[0], hs, 0, 0);
    assert ScratchEntries(Echo(), toks)[0] == NewEntries(layer, hs, 0);
  }

  /** And only then: with the position no further than the texts agree, as a match has it, there is a model for which a
      later match finds the right entries exactly if its part and the text up to the last entry written in place
      continue one another. */
  lemma SharingBreaks(covered: Tokens, at: nat, toks: Tokens, n: nat, offset: nat)
    requires at <= SharedPrefix(toks, covered) && at + n <= |toks| && offset <= |covered|
    ensures SharedEntries(Echo(), covered, at, toks, n, offset) == ScratchEntries(Echo(), covered[..offset])
       <==> OneContinuesTheOther(covered[..offset], toks[..at + n])
  {
    hide ScratchEntries, OverlaidLayers, SharedEntries, SharedPrefix;
    var matched, text := covered[..offset], toks[..at + n];
    if OneContinuesTheOther(matched, text) {
      SharingSurvives(Echo(), covered, at, toks, n, offset);
    } else {
      var k := SharedPrefix(text, matched);
      BreakIsBehind(covered, at, toks, n, offset);
      EchoShared(covered, at, toks, n, offset, k);
    }
  }

  lemma BreakIsBehind(covered: Tokens, at: nat, toks: Tokens, n: nat, offset: nat)
    requires at <= SharedPrefix(toks, covered) && at + n <= |toks| && offset <= |covered|
    ensures SharedPrefix(toks[..at + n], covered[..offset]) >= Min(at, offset)
  {
    hide SharedPrefix;
    var m := Min(at, offset);
    AgreeBefore(toks, covered, at);
    assert toks[..at + n][..m] == toks[..at][..m] && covered[..at][..m] == covered[..offset][..m];
    SharedPrefixIsLongest(toks[..at + n], covered[..offset], m);
  }

  lemma EchoShared(covered: Tokens, at: nat, toks: Tokens, n: nat, offset: nat, k: nat)
    requires at <= k < at + n <= |toks| && k < offset <= |covered|
    ensures SharedEntries(Echo(), covered, at, toks, n, offset)[0][k] == (toks[k], toks[k])
    ensures ScratchEntries(Echo(), covered[..offset])[0][k] == (covered[k], covered[k])
  {
    hide ScratchEntries, OverlaidLayers;
    EchoEntries(covered[..offset]);
    EchoEntries(toks);
  }

  /** So a run that agrees with a stored text in two tokens spoils it for a request that agrees with all of it. */
  lemma LaterRequestIsMisled()
    ensures var key, other, later := [1, 2, 3, 4, 5], [1, 2, 8, 9], [1, 2, 3, 4, 5, 6];
            SharedPrefix(other, key) - 1 == 1 && SharedPrefix(later, key) - 1 == 4 &&
            SharedEntries(Echo(), key[..4], 1, other, 3, 4) != ScratchEntries(Echo(), later[..4])
  {
    hide ScratchEntries, SharedEntries, SharedPrefix, Echo;
    var key, other, later := [1, 2, 3, 4, 5], [1, 2, 8, 9], [1, 2, 3, 4, 5, 6];
    SharedPrefixIs(other, key, 2);
    SharedPrefixIs(other, key[..4], 2);
    SharedPrefixIs(later, key, 5);
    assert key[..4][..4] == later[..4] && other[..4] == other && key[..4][2] == 3;
    SharingBreaks(key[..4], 1, other, 3, 4);
  }
}
