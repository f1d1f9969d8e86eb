/** Which device each layer of a model is placed on. */
module DeviceMap {
  import opened Common

  datatype Range = Range(start: nat, end: nat)

  datatype Device = Cpu | Accelerator(ordinal: nat)

  // ----- splitting a range

  /** The chunks follow one another from the start to the end of the range, and their sizes differ by at most one. */
  ghost predicate IsEvenSplit(range: Range, n: nat, chunks: seq<Range>) {
    && |chunks| == n
    && (forall i :: 0 <= i < n ==> chunks[i].start <= chunks[i].end)
    && (forall i :: 0 <= i < n - 1 ==> chunks[i].end == chunks[i + 1].start)
    && (n > 0 ==> chunks[0].start == range.start && chunks[n - 1].end == range.end)
    && (forall i, j :: 0 <= i < n && 0 <= j < n ==> Size(chunks[i]) <= Size(chunks[j]) + 1)
    && (forall i, j :: 0 <= i < j < n ==> Size(chunks[i]) >= Size(chunks[j]))
  }

  function Size(chunk: Range): int { chunk.end - chunk.start }

  method SplitRange(range: Range, n: nat) returns (chunks: seq<Range>)
    requires n > 0 && range.start <= range.end
    ensures IsEvenSplit(range, n, chunks)
  {
    var total := range.end - range.start;
    var chunkSize, remainder := total / n, total % n;
    assert total == Mul(n, chunkSize) + remainder;
    MulZero(chunkSize);
    hide IsEvenSplit, Mul;
    chunks := [];
    var start := range.start;
    for i := 0 to n
      invariant |chunks| == i
      invariant start == range.start + Mul(i, chunkSize) + Min(i, remainder)
      invariant forall j :: 0 <= j < i ==> Size(chunks[j]) == chunkSize + if j < remainder then 1 else 0
      invariant Contiguous(range.start, chunks, start)
    {
      var extra := if i < remainder then 1 else 0;
      var end := start + chunkSize + extra;
      chunks := chunks + [Range(start, end)];
      start := end;
      MulSucc(i, chunkSize);
    }
    SizesGiveEvenSplit(range, n, chunks, chunkSize, remainder);
  }

  lemma SizesGiveEvenSplit(range: Range, n: nat, chunks: seq<Range>, chunkSize: nat, remainder: nat)
    requires n > 0 && |chunks| == n && Contiguous(range.start, chunks, range.end)
    requires forall j :: 0 <= j < n ==> Size(chunks[j]) == chunkSize + if j < remainder then 1 else 0
    ensures IsEvenSplit(range, n, chunks)
  {
  }

  /** The chunks lie one behind the other from start to end. */
  ghost predicate Contiguous(start: nat, chunks: seq<Range>, end: nat) {
    if chunks == [] then start == end
    else
      && (forall i :: 0 <= i < |chunks| - 1 ==> chunks[i].end == chunks[i + 1].start)
      && chunks[0].start == start && chunks[|chunks| - 1].end == end
  }

  // ----- pipeline parallelism: one rank for each layer

  /** Every layer so far has one of the ranks below the given one, namely the one whose chunk holds it, in
      non-decreasing order. */
  ghost predicate AssignedByChunk(chunks: seq<Range>, rank: nat, mappings: seq<nat>) {
    && (forall l :: 0 <= l < |mappings| ==> mappings[l] < rank)
    && (forall l :: 0 <= l < |mappings| ==> Holds(chunks, mappings[l], l))
    && (forall k, l :: 0 <= k < l < |mappings| ==> mappings[k] <= mappings[l])
  }

  ghost predicate Holds(chunks: seq<Range>, rank: nat, layer: nat) {
    rank < |chunks| && chunks[rank].start <= layer < chunks[rank].end
  }

  lemma AssignNextChunk(chunks: seq<Range>, rank: nat, mappings: seq<nat>, more: seq<nat>)
    requires AssignedByChunk(chunks, rank, mappings)
    requires rank < |chunks| && chunks[rank].start == |mappings| && chunks[rank].end == |mappings| + |more|
    requires forall k :: 0 <= k < |more| ==> more[k] == rank
    ensures AssignedByChunk(chunks, rank + 1, mappings + more)
  {
  }

  lemma ChunkBounds(range: Range, n: nat, chunks: seq<Range>, rank: nat)
    requires IsEvenSplit(range, n, chunks) && rank < n
    ensures |chunks| == n && chunks[rank].start <= chunks[rank].end
    ensures chunks[rank].start == if rank == 0 then range.start else chunks[rank - 1].end
    ensures chunks[n - 1].end == range.end
  {
  }

  method PipelineMapping(modelLayers: nat, ranks: nat) returns (mappings: seq<nat>, ghost splits: seq<Range>)
    requires ranks > 0
    ensures |mappings| == modelLayers && IsEvenSplit(Range(0, modelLayers), ranks, splits)
    ensures AssignedByChunk(splits, ranks, mappings)
  {
    var chunks := SplitRange(Range(0, modelLayers), ranks);
    splits := chunks;
    mappings := [];
    hide IsEvenSplit;
    ChunkBounds(Range(0, modelLayers), ranks, chunks, 0);
    for rank := 0 to ranks
      invariant |mappings| == if rank == 0 then 0 else chunks[rank - 1].end
      invariant AssignedByChunk(chunks, rank, mappings)
    {
      hide AssignedByChunk;
      ChunkBounds(Range(0, modelLayers), ranks, chunks, rank);
      var more := seq(chunks[rank].end - chunks[rank].start, _ => rank);
      AssignNextChunk(chunks, rank, mappings, more);
      mappings := mappings + more;
    }
  }

  // ----- manual mapping

  datatype LayerCount = LayerCount(ordinal: nat, layers: nat)

  /** How placing the layers ends: a placement, one device for everything, an error that is reported, or an assertion
      that fails. */
  datatype Placement = Mapped(devices: seq<Device>) | Dummy | Refused | Panic

  function Requested(deviceLayers: seq<LayerCount>): nat {
    if deviceLayers == [] then 0
    else Requested(deviceLayers[..|deviceLayers| - 1]) + deviceLayers[|deviceLayers| - 1].layers
  }

  function OnDevice(device: Device, ordinal: nat): Device {
    if device == Cpu then Cpu else Accelerator(ordinal)
  }

  /** The entries' layers in the order given. */
  function InOrder(device: Device, deviceLayers: seq<LayerCount>): (devices: seq<Device>)
    ensures |devices| == Requested(deviceLayers)
  {
    if deviceLayers == [] then []
    else
      var last := deviceLayers[|deviceLayers| - 1];
      InOrder(device, deviceLayers[..|deviceLayers| - 1]) + seq(last.layers, _ => OnDevice(device, last.ordinal))
  }

  /** The layers placed on accelerators, clamped to the layers of the model. */
  function DeviceLayerCount(deviceLayers: seq<LayerCount>, modelLayers: nat): nat {
    Min(Requested(deviceLayers), modelLayers)
  }

  function HostLayerCount(deviceLayers: seq<LayerCount>, hostLayers: Option<nat>, modelLayers: nat): nat {
    if hostLayers.Some? then hostLayers.value else modelLayers - DeviceLayerCount(deviceLayers, modelLayers)
  }

  /** Exactly when the placement comes about: the counts sum up to the model's layers, of which there are some, and
      several entries do not ask for more layers than the model has. The count is clamped for the sum, but not for
      several entries. */
  predicate Places(deviceLayers: seq<LayerCount>, hostLayers: Option<nat>, modelLayers: nat) {
    modelLayers > 0
    && DeviceLayerCount(deviceLayers, modelLayers) + HostLayerCount(deviceLayers, hostLayers, modelLayers)
         == modelLayers
    && (|deviceLayers| == 1 || Requested(deviceLayers) <= modelLayers)
  }

  method IntoMapper(device: Device, deviceLayers: Option<seq<LayerCount>>, hostLayers: Option<nat>, modelLayers: nat)
    returns (placement: Placement)
    ensures placement.Dummy? <==> deviceLayers.None?
    ensures deviceLayers.Some? ==>
              (placement.Refused? <==>
                 DeviceLayerCount(deviceLayers.value, modelLayers)
                   + HostLayerCount(deviceLayers.value, hostLayers, modelLayers) != modelLayers)
              && (placement.Mapped? <==> Places(deviceLayers.value, hostLayers, modelLayers))
    ensures placement.Mapped? ==>
              var host := HostLayerCount(deviceLayers.value, hostLayers, modelLayers);
              |placement.devices| == modelLayers && host <= modelLayers &&
              placement.devices
                == (if |deviceLayers.value| == 1 then seq(modelLayers - host, _ => device)
                    else InOrder(device, deviceLayers.value))
                                   + seq(host, _ => Cpu)
  {
    if deviceLayers.None? {
      return Dummy;
    }
    var layers := deviceLayers.value;
    var requested := 0;
    for i := 0 to |layers|
      invariant requested == Requested(layers[..i])
    {
      assert layers[..i + 1][..i] == layers[..i];
      requested := requested + layers[i].layers;
    }
    assert layers[..|layers|] == layers;
    var nDeviceLayers := Min(requested, modelLayers);
    var nHostLayers := if hostLayers.Some? then hostLayers.value else Max(modelLayers - nDeviceLayers, 0);
    if nDeviceLayers + nHostLayers != modelLayers {
      return Refused;
    }
    var combined: seq<Device> := [];
    if |layers| == 1 {
      combined := combined + seq(nDeviceLayers, _ => device);
    } else {
      for i := 0 to |layers|
        invariant combined == InOrder(device, layers[..i])
      {
        assert layers[..i + 1][..i] == layers[..i];
        var dev := if device == Cpu then Cpu else Accelerator(layers[i].ordinal);
        combined := combined + seq(layers[i].layers, _ => dev);
      }
    }
    combined := combined + seq(nHostLayers, _ => Cpu);
    if |combined| != modelLayers {
      return Panic;
    }
    if combined == [] {
      return Panic;
    }
    return Mapped(combined);
  }

  /** Each entry's layers stand together, right behind those of the entries before it. */
  lemma {:induction false} EntryLayersAreContiguous(device: Device, deviceLayers: seq<LayerCount>, entry: nat, k: nat)
    requires entry < |deviceLayers| && k < deviceLayers[entry].layers
    ensures Requested(deviceLayers[..entry]) + k < Requested(deviceLayers)
    ensures InOrder(device, deviceLayers)[Requested(deviceLayers[..entry]) + k]
              == if device.Cpu? then Cpu else Accelerator(deviceLayers[entry].ordinal)
  {
    var n := |deviceLayers| - 1;
    if entry < n {
      EntryLayersAreContiguous(device, deviceLayers[..n], entry, k);
      assert deviceLayers[..n][..entry] == deviceLayers[..entry];
    }
  }

  /** Without a host count, a single entry or entries that ask for no more than the model has are always placed: the
      entries' layers first, then the rest on the host. */
  lemma AutoFilledPlaces(device: Device, deviceLayers: seq<LayerCount>, modelLayers: nat)
    requires modelLayers > 0
    ensures Places(deviceLayers, None, modelLayers) <==> |deviceLayers| == 1 || Requested(deviceLayers) <= modelLayers
    ensures Places(deviceLayers, None, modelLayers) && |deviceLayers| == 1 ==>
              HostLayerCount(deviceLayers, None, modelLayers) == Max(modelLayers - deviceLayers[0].layers, 0)
    ensures Places(deviceLayers, None, modelLayers) && |deviceLayers| != 1 ==>
              |InOrder(device, deviceLayers)| + HostLayerCount(deviceLayers, None, modelLayers) == modelLayers
  {
    if |deviceLayers| == 1 {
      assert deviceLayers[..0] == [];
      assert Requested(deviceLayers) == deviceLayers[0].layers;
    }
  }

  /** Requests add up. */
  lemma {:induction false} RequestedSplits(a: seq<LayerCount>, b: seq<LayerCount>)
    ensures Requested(a + b) == Requested(a) + Requested(b)
    ensures Requested([]) == 0 && forall x: LayerCount :: Requested([x]) == x.layers
    decreases |b|
  {
    if b == [] {
      assert a + b == a;
    } else {
      RequestedSplits(a, b[..|b| - 1]);
      assert (a + b)[..|a + b| - 1] == a + b[..|b| - 1];
    }
    forall x: LayerCount ensures Requested([x]) == x.layers {
      assert [x][..0] == [];
    }
  }

  /** With a host count, the placement comes about exactly if the counts make up the layers; a single entry may ask for
      more than the model has if the host gets none. */
  lemma HostCountPlaces(deviceLayers: seq<LayerCount>, hostLayers: nat, modelLayers: nat)
    requires modelLayers > 0
    ensures Places(deviceLayers, Some(hostLayers), modelLayers) <==>
              Requested(deviceLayers) + hostLayers == modelLayers
              || (|deviceLayers| == 1 && Requested(deviceLayers) > modelLayers && hostLayers == 0)
  {
  }

  /** Two entries that together ask for more than the model has: the counts sum up, but the assertion fails. */
  lemma TooManyLayers()
    ensures var entries := [LayerCount(0, 20), LayerCount(1, 20)];
            DeviceLayerCount(entries, 32) + HostLayerCount(entries, None, 32) == 32 && !Places(entries, None, 32)
  {
    var entries := [LayerCount(0, 20), LayerCount(1, 20)];
    assert entries[..1] == [LayerCount(0, 20)] && entries[..1][..0] == [];
    assert Requested(entries) == 40;
  }
}
