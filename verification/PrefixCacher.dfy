/** The prefix cache: key-value caches of finished sequences, kept for requests that start the same way. */
module PrefixCacher {
  import opened Common

  type Token = nat

  type Tokens = seq<Token>

  datatype Device = Cpu | Accelerator(ordinal: nat)

  datatype Tensor<E> = Tensor(entries: seq<E>, device: Device)

  /** Entries beyond currentSeqLen are stale. */
  datatype SingleCache<E> = SingleCache(allData: Option<Tensor<E>>, currentSeqLen: nat)

  datatype KvCache<E> = KvCache(k: SingleCache<E>, v: SingleCache<E>)

  /** One cache for each layer; None for a layer that keeps none. */
  type LayerCaches<E> = seq<Option<KvCache<E>>>

  datatype MatchingCache<E> = MatchingCache(normal: LayerCaches<E>, toks: Tokens, offset: nat)

  // ----- how long two token sequences agree

  /** The indices a zipped, enumerated iteration yields before the first difference. */
  function MatchedIndices(a: Tokens, b: Tokens, i: nat): seq<nat>
    decreases |a| - i
  {
    if i < |a| && i < |b| && a[i] == b[i] then [i] + MatchedIndices(a, b, i + 1) else []
  }

  function FindMaxIndex(a: Tokens, b: Tokens): Option<nat> {
    var indices := MatchedIndices(a, b, 0);
    if indices == [] then None else Some(indices[|indices| - 1])
  }

  /** The length of the longest common prefix. */
  function SharedPrefix(a: Tokens, b: Tokens): (n: nat)
    ensures n <= |a| && n <= |b| && a[..n] == b[..n]
    ensures n < |a| && n < |b| ==> a[n] != b[n]
  {
    if a != [] && b != [] && a[0] == b[0] then
      var n := 1 + SharedPrefix(a[1..], b[1..]);
      assert a[..n] == [a[0]] + a[1..][..n - 1] && b[..n] == [b[0]] + b[1..][..n - 1];
      n
    else 0
  }

  lemma {:induction false} MatchedIndicesCount(a: Tokens, b: Tokens, i: nat)
    requires i <= |a| && i <= |b|
    ensures var indices := MatchedIndices(a, b, i);
            |indices| == SharedPrefix(a[i..], b[i..]) &&
            (indices != [] ==> indices[|indices| - 1] == i + |indices| - 1)
    decreases |a| - i
  {
    if i < |a| && i < |b| && a[i] == b[i] {
      MatchedIndicesCount(a, b, i + 1);
      assert a[i..][1..] == a[i + 1..] && b[i..][1..] == b[i + 1..];
    }
  }

  /** The index found is one short of the common prefix length. */
  lemma FindMaxIndexIsSharedPrefix(a: Tokens, b: Tokens)
    ensures FindMaxIndex(a, b) == if SharedPrefix(a, b) == 0 then None else Some(SharedPrefix(a, b) - 1)
  {
    MatchedIndicesCount(a, b, 0);
    assert a[0..] == a && b[0..] == b;
  }

  // ----- moving caches between devices, and shortening them

  function MovedTensor<E>(t: Option<Tensor<E>>, device: Device): Option<Tensor<E>> {
    match t
    case None => None
    case Some(x) => Some(Tensor(x.entries, device))
  }

  function MovedLayer<E>(layer: Option<KvCache<E>>, device: Device): Option<KvCache<E>> {
    match layer
    case None => None
    case Some(c) => Some(KvCache(SingleCache(MovedTensor(c.k.allData, device), c.k.currentSeqLen),
                                 SingleCache(MovedTensor(c.v.allData, device), c.v.currentSeqLen)))
  }

  function Moved<E>(cache: LayerCaches<E>, device: Device): LayerCaches<E> {
    seq(|cache|, i requires 0 <= i < |cache| => MovedLayer(cache[i], device))
  }

  function ShortenedLayer<E>(layer: Option<KvCache<E>>, len: nat): Option<KvCache<E>> {
    match layer
    case None => None
    case Some(c) => Some(KvCache(c.k.(currentSeqLen := len), c.v.(currentSeqLen := len)))
  }

  function Shortened<E>(cache: LayerCaches<E>, len: nat): LayerCaches<E> {
    seq(|cache|, i requires 0 <= i < |cache| => ShortenedLayer(cache[i], len))
  }

  /** One tensor is the other one on a device and with a length: the same entries, if there are any. */
  ghost predicate TransferredTo<E>(before: SingleCache<E>, after: SingleCache<E>, device: Device, len: nat) {
    && after.currentSeqLen == len
    && (after.allData.Some? <==> before.allData.Some?)
    && (after.allData.Some? ==>
          after.allData.value.entries == before.allData.value.entries && after.allData.value.device == device)
  }

  /** Every layer that keeps a cache has its keys and its values on the device, and they are what they were. */
  ghost predicate Transferred<E>(before: LayerCaches<E>, after: LayerCaches<E>, device: Device) {
    && |after| == |before|
    && (forall i :: 0 <= i < |before| ==> (after[i].Some? <==> before[i].Some?))
    && (forall i :: 0 <= i < |before| && before[i].Some? ==>
          TransferredTo(before[i].value.k, after[i].value.k, device, before[i].value.k.currentSeqLen) &&
          TransferredTo(before[i].value.v, after[i].value.v, device, before[i].value.v.currentSeqLen))
  }

  /** The same, with all lengths set. */
  ghost predicate HandedOut<E>(before: LayerCaches<E>, after: LayerCaches<E>, device: Device, len: nat) {
    && |after| == |before|
    && (forall i :: 0 <= i < |before| ==> (after[i].Some? <==> before[i].Some?))
    && (forall i :: 0 <= i < |before| && before[i].Some? ==>
          TransferredTo(before[i].value.k, after[i].value.k, device, len) &&
          TransferredTo(before[i].value.v, after[i].value.v, device, len))
  }

  predicate TensorOn<E>(c: SingleCache<E>, device: Device) {
    c.allData.Some? ==> c.allData.value.device == device
  }

  /** All keys and all values are on the device. */
  ghost predicate AllOn<E>(cache: LayerCaches<E>, device: Device) {
    forall i :: 0 <= i < |cache| && cache[i].Some? ==>
      TensorOn(cache[i].value.k, device) && TensorOn(cache[i].value.v, device)
  }

  lemma MovedIsTransferred<E>(cache: LayerCaches<E>, device: Device, len: nat)
    ensures Transferred(cache, Moved(cache, device), device)
    ensures HandedOut(cache, Shortened(Moved(cache, device), len), device, len)
    ensures AllOn(Moved(cache, device), device) && AllOn(Shortened(Moved(cache, device), len), device)
  {
  }

  /** The same entries and lengths, wherever they are kept. */
  ghost predicate SameContent<E>(a: LayerCaches<E>, b: LayerCaches<E>) {
    Moved(a, Cpu) == Moved(b, Cpu)
  }

  ghost predicate Relocated<E>(before: map<Tokens, LayerCaches<E>>, after: map<Tokens, LayerCaches<E>>) {
    before.Keys == after.Keys && forall k <- before.Keys :: SameContent(before[k], after[k])
  }

  lemma SameContentMovesAlike<E>(a: LayerCaches<E>, b: LayerCaches<E>, device: Device)
    requires SameContent(a, b)
    ensures Moved(a, device) == Moved(b, device)
  {
    assert |a| == |Moved(a, Cpu)| == |b|;
    forall i | 0 <= i < |a| ensures MovedLayer(a[i], device) == MovedLayer(b[i], device) {
      assert Moved(a, Cpu)[i] == Moved(b, Cpu)[i];
      assert MovedLayer(a[i], device) == MovedLayer(MovedLayer(a[i], Cpu), device);
      assert MovedLayer(b[i], device) == MovedLayer(MovedLayer(b[i], Cpu), device);
    }
  }

  lemma MovedHasSameContent<E>(a: LayerCaches<E>, device: Device)
    ensures SameContent(a, Moved(a, device))
  {
  }

  // ----- which caches are on a device

  /** The first layer that keeps a cache. */
  function FirstNonNone<E>(cache: LayerCaches<E>): Option<KvCache<E>> {
    if cache == [] then None else if cache[0].Some? then cache[0] else FirstNonNone(cache[1..])
  }

  /** What the eviction loops rely on when they look at the device of a cache. */
  predicate HasData<E>(cache: LayerCaches<E>) {
    FirstNonNone(cache).Some? ==> FirstNonNone(cache).value.k.allData.Some?
  }

  /** Where the keys of the first layer that keeps a cache are decides. */
  lemma OnDeviceMeans<E>(cache: LayerCaches<E>, i: nat)
    requires i < |cache| && cache[i].Some? && forall j :: 0 <= j < i ==> cache[j].None?
    ensures OnDevice(cache) <==> cache[i].value.k.allData.Some? && cache[i].value.k.allData.value.device != Cpu
  {
    if i > 0 {
      OnDeviceMeans(cache[1..], i - 1);
    }
  }

  predicate OnDevice<E>(cache: LayerCaches<E>) {
    var first := FirstNonNone(cache);
    first.Some? && first.value.k.allData.Some? && first.value.k.allData.value.device != Cpu
  }

  ghost predicate AllHaveData<E>(caches: map<Tokens, LayerCaches<E>>) {
    forall k <- caches.Keys :: HasData(caches[k])
  }

  ghost function KeysOnDevice<E>(caches: map<Tokens, LayerCaches<E>>): set<Tokens> {
    set k | k in caches.Keys && OnDevice(caches[k])
  }

  ghost function CountOnDevice<E>(caches: map<Tokens, LayerCaches<E>>): nat {
    |KeysOnDevice(caches)|
  }

  lemma {:induction false} FirstNonNoneMoved<E>(cache: LayerCaches<E>, device: Device)
    ensures FirstNonNone(Moved(cache, device)) == MovedLayer(FirstNonNone(cache), device)
  {
    if cache != [] && cache[0].None? {
      assert Moved(cache, device)[1..] == Moved(cache[1..], device);
      FirstNonNoneMoved(cache[1..], device);
    }
  }

  /** A moved cache is on the device unless it went to the CPU or keeps nothing. */
  lemma MovedOnDevice<E>(cache: LayerCaches<E>, device: Device)
    requires HasData(cache)
    ensures HasData(Moved(cache, device))
    ensures OnDevice(Moved(cache, device)) <==> device != Cpu && FirstNonNone(cache).Some?
  {
    FirstNonNoneMoved(cache, device);
  }

  // ----- what eviction does to the whole map

  /** The caches of the given keys went to the CPU, and the others stayed. */
  ghost predicate MovedToCpu<E>(before: map<Tokens, LayerCaches<E>>, after: map<Tokens, LayerCaches<E>>,
                                moved: set<Tokens>) {
    after == map k | k in before.Keys :: if k in moved then Moved(before[k], Cpu) else before[k]
  }

  lemma MovedToCpuKeys<E>(before: map<Tokens, LayerCaches<E>>, after: map<Tokens, LayerCaches<E>>, moved: set<Tokens>)
    requires MovedToCpu(before, after, moved)
    ensures after.Keys == before.Keys
    ensures forall k <- before.Keys - moved :: after[k] == before[k]
  {
  }

  lemma MovedToCpuOneMore<E>(before: map<Tokens, LayerCaches<E>>, after: map<Tokens, LayerCaches<E>>,
                             moved: set<Tokens>, k: Tokens)
    requires MovedToCpu(before, after, moved) && k in before.Keys
    ensures MovedToCpu(before, after[k := Moved(before[k], Cpu)], moved + {k})
  {
  }

  lemma {:induction false} SubsetCard<T>(a: set<T>, b: set<T>)
    requires a <= b
    ensures |a| <= |b|
  {
    assert b == a + (b - a);
  }

  /** Of the residents, those moved are no longer among the remaining, and the others still are. */
  ghost predicate Visited<T(!new)>(resident: set<T>, moved: set<T>, remaining: set<T>) {
    moved <= resident && moved !! remaining && resident <= moved + remaining
  }

  lemma VisitNone<T(!new)>(resident: set<T>, remaining: set<T>)
    requires resident <= remaining
    ensures Visited(resident, {}, remaining)
  {
  }

  lemma VisitOne<T(!new)>(resident: set<T>, moved: set<T>, remaining: set<T>, k: T)
    requires Visited(resident, moved, remaining) && k in remaining
    ensures k !in moved
    ensures if k in resident
            then Visited(resident, moved + {k}, remaining - {k}) && |moved + {k}| == |moved| + 1 <= |resident|
            else Visited(resident, moved, remaining - {k})
  {
    InsertGrows(moved, k);
    if k in resident {
      SubsetCard(moved + {k}, resident);
    }
  }

  lemma VisitedAll<T(!new)>(resident: set<T>, moved: set<T>, remaining: set<T>)
    requires Visited(resident, moved, remaining)
    ensures moved <= resident
    ensures remaining == {} ==> moved == resident
  {
  }

  lemma MovedToCpuAt<E>(before: map<Tokens, LayerCaches<E>>, after: map<Tokens, LayerCaches<E>>, moved: set<Tokens>,
                        k: Tokens)
    requires MovedToCpu(before, after, moved) && k in before.Keys && HasData(before[k])
    ensures k in after.Keys && HasData(after[k]) && SameContent(before[k], after[k])
    ensures OnDevice(after[k]) <==> OnDevice(before[k]) && k !in moved
  {
    MovedOnDevice(before[k], Cpu);
    MovedHasSameContent(before[k], Cpu);
  }

  lemma MovedToCpuResidents<E>(before: map<Tokens, LayerCaches<E>>, after: map<Tokens, LayerCaches<E>>,
                               moved: set<Tokens>)
    requires AllHaveData(before) && MovedToCpu(before, after, moved)
    ensures AllHaveData(after) && Relocated(before, after)
    ensures KeysOnDevice(after) == KeysOnDevice(before) - moved
  {
    MovedToCpuKeys(before, after, moved);
    forall k <- before.Keys ensures HasData(after[k]) && SameContent(before[k], after[k])
      ensures OnDevice(after[k]) <==> OnDevice(before[k]) && k !in moved
    {
      MovedToCpuAt(before, after, moved, k);
    }
  }

  /** Whatever went off the device went to the CPU as a whole, and nothing else changed. */
  ghost predicate Evicted<E>(before: map<Tokens, LayerCaches<E>>, after: map<Tokens, LayerCaches<E>>) {
    before.Keys == after.Keys
    && forall k <- before.Keys ::
         if OnDevice(before[k]) && !OnDevice(after[k]) then Transferred(before[k], after[k], Cpu)
              else after[k] == before[k]
  }

  lemma MovedToCpuEvicts<E>(before: map<Tokens, LayerCaches<E>>, after: map<Tokens, LayerCaches<E>>, moved: set<Tokens>)
    requires AllHaveData(before) && moved <= KeysOnDevice(before) && MovedToCpu(before, after, moved)
    ensures Evicted(before, after)
  {
    MovedToCpuKeys(before, after, moved);
    hide OnDevice, Moved, Transferred, HasData;
    forall k <- before.Keys
      ensures if OnDevice(before[k]) && !OnDevice(after[k]) then Transferred(before[k], after[k], Cpu)
                else after[k] == before[k]
    {
      MovedToCpuAt(before, after, moved, k);
      MovedIsTransferred(before[k], Cpu, 0);
    }
  }

  lemma EvictionSummary<E>(before: map<Tokens, LayerCaches<E>>, after: map<Tokens, LayerCaches<E>>, moved: set<Tokens>)
    requires AllHaveData(before) && moved <= KeysOnDevice(before) && MovedToCpu(before, after, moved)
    ensures AllHaveData(after) && Relocated(before, after) && Evicted(before, after)
    ensures KeysOnDevice(after) == KeysOnDevice(before) - moved
    ensures CountOnDevice(after) == CountOnDevice(before) - |moved|
    ensures |moved| == 0 ==> before == after
  {
    MovedToCpuResidents(before, after, moved);
    MovedToCpuEvicts(before, after, moved);
    var resident, left := KeysOnDevice(before), KeysOnDevice(after);
    assert resident == left + moved;
  }

  /** How many caches move to the CPU, of so many that are on a device. */
  function EvictedCount(resident: nat, limit: nat): nat {
    if resident >= limit then resident - limit else resident
  }

  /** What is reported instead, of so many that are stored. */
  function ReportedCount(stored: nat, limit: nat): nat {
    if stored >= limit then stored - limit else 0
  }

  /** The number reported is the number moved exactly if every cache that is stored is on a device, when those reach the
      limit; and when they do not, if the others are as many as the limit, or nothing moves and no more is stored than
      the limit. */
  lemma ReportedIsEvicted(stored: nat, resident: nat, limit: nat)
    requires resident <= stored
    ensures ReportedCount(stored, limit) == EvictedCount(resident, limit) <==>
              if resident >= limit then resident == stored
              else stored == limit + resident || (resident == 0 && stored <= limit)
  {
  }

  /** Two are stored and one of them is on a device, where one may stay: none moves, and one is reported. */
  lemma ReportedIsNotEvicted()
    ensures ReportedCount(2, 1) == 1 && EvictedCount(1, 1) == 0
  {
  }

  // ----- what a search may answer

  /** The answers a search may give; which of several equally long matches it takes depends on the order
      in which the map is iterated. */
  ghost predicate IsSearchResult<E(!new)>(caches: map<Tokens, LayerCaches<E>>, device: Device, noPrefixCache: bool,
                                          toks: Tokens, containsImages: bool, r: Option<MatchingCache<E>>)
  {
    if noPrefixCache || toks == [] || containsImages then r == None
    else
      match r
      case None => forall k <- caches.Keys :: SharedPrefix(toks, k) < 2
      case Some(found) =>
        exists k <- caches.Keys ::
          && SharedPrefix(toks, k) >= 2
          && (forall other <- caches.Keys :: SharedPrefix(toks, other) <= SharedPrefix(toks, k))
          && found.offset == SharedPrefix(toks, k) - 1
          && found.toks == toks[found.offset..]
          && found.normal == Shortened(Moved(caches[k], device), found.offset)
  }

  /** A match covers at least one token and leaves at least one to run, and nothing is lost in between. */
  lemma MatchLeavesWork<E(!new)>(caches: map<Tokens, LayerCaches<E>>, device: Device, toks: Tokens,
                                 r: Option<MatchingCache<E>>)
    requires IsSearchResult(caches, device, false, toks, false, r) && r.Some?
    ensures 1 <= r.value.offset && 1 <= |r.value.toks|
    ensures toks == toks[..r.value.offset] + r.value.toks
  {
  }

  /** The offset does not depend on the iteration order: any two answers agree on it. */
  lemma OffsetIsDetermined<E(!new)>(caches: map<Tokens, LayerCaches<E>>, device: Device, toks: Tokens,
                                    r: Option<MatchingCache<E>>, s: Option<MatchingCache<E>>)
    requires IsSearchResult(caches, device, false, toks, false, r)
    requires IsSearchResult(caches, device, false, toks, false, s)
    ensures r.Some? <==> s.Some?
    ensures r.Some? ==> r.value.offset == s.value.offset && r.value.toks == s.value.toks
  {
  }

  /** Where the stored caches are kept never changes what a search may answer. */
  lemma RelocationIsInvisible<E(!new)>(before: map<Tokens, LayerCaches<E>>, after: map<Tokens, LayerCaches<E>>,
                                       device: Device, noPrefixCache: bool, toks: Tokens, containsImages: bool,
                                       r: Option<MatchingCache<E>>)
    requires Relocated(before, after)
    ensures IsSearchResult(before, device, noPrefixCache, toks, containsImages, r)
       <==> IsSearchResult(after, device, noPrefixCache, toks, containsImages, r)
  {
    forall k <- before.Keys ensures Moved(before[k], device) == Moved(after[k], device) {
      SameContentMovesAlike(before[k], after[k], device);
    }
  }

  class PrefixCacheManager<E(!new)> {
    var caches: map<Tokens, LayerCaches<E>>
    const device: Device
    const nOnDevice: nat
    const noPrefixCache: bool

    constructor (device: Device, nOnDevice: nat, noPrefixCache: bool)
      ensures caches == map[]
      ensures this.device == device && this.nOnDevice == nOnDevice && this.noPrefixCache == noPrefixCache
    {
      caches := map[];
      this.device := device;
      this.nOnDevice := nOnDevice;
      this.noPrefixCache := noPrefixCache;
    }

    method AddSequence(toks: Tokens, cache: LayerCaches<E>)
      modifies this
      ensures caches == if noPrefixCache then old(caches) else old(caches)[toks := cache]
    {
      if noPrefixCache {
        return;
      }
      caches := caches[toks := cache];
    }

    static method CacheTo(cache: LayerCaches<E>, device: Device) returns (moved: LayerCaches<E>)
      ensures moved == Moved(cache, device)
      ensures Transferred(cache, moved, device)
    {
      moved := cache;
      for i := 0 to |cache|
        invariant |moved| == |cache|
        invariant forall j :: 0 <= j < |cache| ==> moved[j] == if j < i then MovedLayer(cache[j], device) else cache[j]
      {
        if moved[i].Some? {
          var layer := moved[i].value;
          moved := moved[i := Some(KvCache(SingleCache(MovedTensor(layer.k.allData, device), layer.k.currentSeqLen),
                                           SingleCache(MovedTensor(layer.v.allData, device), layer.v.currentSeqLen)))];
        }
      }
    }

    /** Number of stored caches that are not on the CPU. */
    method CountDeviceCaches() returns (n: nat)
      requires AllHaveData(caches)
      ensures n == CountOnDevice(caches)
    {
      n := 0;
      var remaining := caches.Keys;
      ghost var resident, seen := KeysOnDevice(caches), {};
      while remaining != {}
        invariant remaining <= caches.Keys
        invariant seen <= resident <= seen + remaining && seen !! remaining && |seen| == n
      {
        var k :| k in remaining;
        remaining := remaining - {k};
        if OnDevice(caches[k]) {
          InsertGrows(seen, k);
          n := n + 1;
          seen := seen + {k};
        }
      }
      assert seen == resident;
    }

    /** Moves caches to the CPU until nOnDevice of them are left on the device. From below that number the
        test for equality never succeeds, and every cache is moved. */
    method EvictToCpu() returns (reported: nat)
      requires AllHaveData(caches)
      modifies this
      ensures noPrefixCache ==> caches == old(caches) && reported == 0
      ensures Relocated(old(caches), caches) && AllHaveData(caches) && Evicted(old(caches), caches)
      ensures KeysOnDevice(caches) <= old(KeysOnDevice(caches))
      ensures !noPrefixCache ==>
                CountOnDevice(caches) == if old(CountOnDevice(caches)) >= nOnDevice then nOnDevice else 0
      ensures old(CountOnDevice(caches)) == nOnDevice ==> caches == old(caches)
      ensures !noPrefixCache ==>
                old(CountOnDevice(caches)) - CountOnDevice(caches)
                  == EvictedCount(old(CountOnDevice(caches)), nOnDevice)
      ensures !noPrefixCache ==> reported == ReportedCount(|caches|, nOnDevice)
      ensures !noPrefixCache ==> if |caches| > nOnDevice then reported + nOnDevice == |caches| else reported == 0
    {
      if noPrefixCache {
        return 0;
      }
      var total := CountDeviceCaches();
      ghost var before := caches;
      ghost var moved := MoveDownToLimit(total);
      EvictionSummary(before, caches, moved);
      reported := if |caches| >= nOnDevice then |caches| - nOnDevice else 0;
    }

    /** The second loop of the eviction, given the number the first one counted. */
    method MoveDownToLimit(total: nat) returns (ghost moved: set<Tokens>)
      requires AllHaveData(caches) && total == CountOnDevice(caches)
      modifies this
      ensures moved <= old(KeysOnDevice(caches)) && MovedToCpu(old(caches), caches, moved)
      ensures |moved| == if total >= nOnDevice then total - nOnDevice else total
    {
      var evicted := 0;
      var remaining := caches.Keys;
      ghost var before, resident := caches, KeysOnDevice(caches);
      moved := {};
      assert MovedToCpu(before, caches, moved);
      hide MovedToCpu, OnDevice, Moved, Visited;
      assert Visited(resident, moved, remaining) by { VisitNone(resident, remaining); }
      while remaining != {}
        invariant remaining <= before.Keys && |moved| == evicted <= total
        invariant Visited(resident, moved, remaining)
        invariant MovedToCpu(before, caches, moved)
        invariant total >= nOnDevice ==> total - evicted >= nOnDevice
      {
        if total - evicted == nOnDevice {
          break;
        }
        var k :| k in remaining;
        VisitOne(resident, moved, remaining, k);
        remaining := remaining - {k};
        assert caches[k] == before[k] by { MovedToCpuKeys(before, caches, moved); }
        if OnDevice(caches[k]) {
          var cache := CacheTo(caches[k], Cpu);
          MovedToCpuOneMore(before, caches, moved, k);
          caches := caches[k := cache];
          evicted := evicted + 1;
          moved := moved + {k};
        }
      }
      VisitedAll(resident, moved, remaining);
    }

    method EvictAllToCpu() returns (reported: nat)
      requires AllHaveData(caches)
      modifies this
      ensures noPrefixCache ==> caches == old(caches) && reported == 0
      ensures Relocated(old(caches), caches) && AllHaveData(caches) && Evicted(old(caches), caches)
      ensures !noPrefixCache ==> KeysOnDevice(caches) == {} && reported == |caches|
    {
      if noPrefixCache {
        return 0;
      }
      var remaining := caches.Keys;
      ghost var before, resident := caches, KeysOnDevice(caches);
      ghost var moved := {};
      while remaining != {}
        invariant remaining <= before.Keys
        invariant moved <= resident <= moved + remaining && moved !! remaining
        invariant MovedToCpu(before, caches, moved)
      {
        var k :| k in remaining;
        remaining := remaining - {k};
        assert caches[k] == before[k] by { MovedToCpuKeys(before, caches, moved); }
        if OnDevice(caches[k]) {
          var cache := CacheTo(caches[k], Cpu);
          MovedToCpuOneMore(before, caches, moved, k);
          caches := caches[k := cache];
          moved := moved + {k};
        }
      }
      assert moved == resident;
      EvictionSummary(before, caches, moved);
      reported := |caches|;
    }

    method SearchForMatchingCache(toks: Tokens, containsImages: bool) returns (r: Option<MatchingCache<E>>)
      ensures IsSearchResult(caches, device, noPrefixCache, toks, containsImages, r)
      ensures r.Some? ==>
                AllOn(r.value.normal, device) &&
                exists k <- caches.Keys :: SharedPrefix(toks, k) == r.value.offset + 1 &&
                                           HandedOut(caches[k], r.value.normal, device, r.value.offset)
    {
      if noPrefixCache || toks == [] || containsImages {
        return None;
      }
      var longest: (nat, Option<LayerCaches<E>>) := (0, None);
      ghost var best := toks;
      var remaining := caches.Keys;
      while remaining != {}
        invariant remaining <= caches.Keys
        invariant longest.1.None? ==> longest.0 == 0
        invariant longest.1.Some? ==>
                    best in caches.Keys && longest.1.value == caches[best] &&
                    longest.0 >= 1 && SharedPrefix(toks, best) == longest.0 + 1
        invariant forall k <- caches.Keys - remaining :: SharedPrefix(toks, k) <= longest.0 + 1
      {
        var k :| k in remaining;
        remaining := remaining - {k};
        FindMaxIndexIsSharedPrefix(toks, k);
        var matchLen := FindMaxIndex(toks, k);
        if matchLen.Some? && matchLen.value > longest.0 {
          longest := (matchLen.value, Some(caches[k]));
          best := k;
        }
      }
      if longest.1.Some? {
        var matchLen := longest.0;
        var moved := CacheTo(longest.1.value, device);
        var cache := moved;
        for i := 0 to |cache|
          invariant |cache| == |moved|
          invariant forall j :: 0 <= j < |cache| ==>
                      cache[j] == if j < i then ShortenedLayer(moved[j], matchLen) else moved[j]
        {
          if cache[i].Some? {
            var layer := cache[i].value;
            cache := cache[i := Some(KvCache(layer.k.(currentSeqLen := matchLen),
                                             layer.v.(currentSeqLen := matchLen)))];
          }
        }
        assert cache == Shortened(Moved(caches[best], device), matchLen);
        MovedIsTransferred(caches[best], device, matchLen);
        return Some(MatchingCache(cache, toks[matchLen..], matchLen));
      }
      return None;
    }
  }

}
