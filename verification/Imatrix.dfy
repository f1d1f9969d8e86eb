/** The .cimatrix format: collected importance data of the layers, written to and read from bytes. */
module Imatrix {
  import opened Common

  type Byte = b: nat | b < 256

  /** 64-bit numbers, and 32-bit floats by their bit patterns. */
  type U64 = n: nat | n < 0x1_0000_0000_0000_0000

  type F32 = n: nat | n < 0x1_0000_0000

  type Entries = map<U64, Option<seq<F32>>>

  datatype IoError = UnexpectedEof | WrongExtension

  // ----- little-endian numbers

  function WriteLe(n: nat, width: nat): (s: seq<Byte>)
    ensures |s| == width
  {
    if width == 0 then [] else [n % 256] + WriteLe(n / 256, width - 1)
  }

  function ReadLe(s: seq<Byte>): nat {
    if s == [] then 0 else s[0] + 256 * ReadLe(s[1..])
  }

  function Pow256(width: nat): nat {
    if width == 0 then 1 else 256 * Pow256(width - 1)
  }

  lemma {:induction false} ReadLeBounded(s: seq<Byte>)
    ensures ReadLe(s) < Pow256(|s|)
    decreases |s|
  {
    if s != [] {
      ReadLeBounded(s[1..]);
    }
  }

  lemma {:induction false} ReadWriteLe(n: nat, width: nat)
    requires n < Pow256(width)
    ensures ReadLe(WriteLe(n, width)) == n
    decreases width
  {
    if width > 0 {
      ReadWriteLe(n / 256, width - 1);
      assert WriteLe(n, width)[1..] == WriteLe(n / 256, width - 1);
    }
  }

  lemma Pow256Values()
    ensures Pow256(4) == 0x1_0000_0000 && Pow256(8) == 0x1_0000_0000_0000_0000
  {
    assert Pow256(2) == 0x1_0000;
    assert Pow256(4) == 0x1_0000_0000;
    assert Pow256(6) == 0x1_0000_0000_0000;
  }

  // ----- what is written

  function FloatBytes(data: seq<F32>): (s: seq<Byte>)
    ensures |s| == 4 * |data|
  {
    if data == [] then [] else FloatBytes(data[..|data| - 1]) + WriteLe(data[|data| - 1], 4)
  }

  function EntryBytes(i: U64, data: Option<seq<F32>>): seq<Byte> {
    match data
    case None => WriteLe(i, 8) + [0]
    case Some(d) => WriteLe(i, 8) + [1] + WriteLe(|d|, 8) + FloatBytes(d)
  }

  /** Little-endian: the byte at place k counts multiples of 256 to the k. */
  lemma {:induction false} WriteLeAt(n: nat, width: nat, k: nat)
    requires k < width
    ensures Pow256(k) > 0 && WriteLe(n, width)[k] == n / Pow256(k) % 256
    decreases k
  {
    PowPositive(k);
    if k > 0 {
      WriteLeAt(n / 256, width - 1, k - 1);
      DivTwice(n, 256, Pow256(k - 1));
    }
  }

  lemma {:induction false} PowPositive(k: nat)
    ensures Pow256(k) > 0
    decreases k
  {
    if k > 0 {
      PowPositive(k - 1);
    }
  }

  lemma {:induction false} FloatAt(data: seq<F32>, k: nat)
    requires k < |data|
    ensures FloatBytes(data)[4 * k..4 * k + 4] == WriteLe(data[k], 4)
    decreases |data|
  {
    var n := |data| - 1;
    if k < n {
      FloatAt(data[..n], k);
      assert FloatBytes(data)[4 * k..4 * k + 4] == FloatBytes(data[..n])[4 * k..4 * k + 4];
    }
  }

  /** The bytes of an entry by position: the index in eight bytes, a byte that is 1 or 0, and with data its length in
      eight bytes and each value in four. */
  lemma EntryLayout(i: U64, data: Option<seq<F32>>, k: nat)
    ensures var s := EntryBytes(i, data);
            |s| >= 9 && s[..8] == WriteLe(i, 8) && s[8] == (if data.Some? then 1 else 0) &&
            |s| == (if data.Some? then 17 + 4 * |data.value| else 9) &&
            (data.Some? ==> s[9..17] == WriteLe(|data.value|, 8)) &&
            (data.Some? && k < |data.value| ==> s[17 + 4 * k..21 + 4 * k] == WriteLe(data.value[k], 4))
  {
    if data.Some? {
      var head := WriteLe(i, 8) + [1] + WriteLe(|data.value|, 8);
      assert EntryBytes(i, data) == head + FloatBytes(data.value);
      if k < |data.value| {
        FloatAt(data.value, k);
        assert EntryBytes(i, data)[17 + 4 * k..21 + 4 * k] == FloatBytes(data.value)[4 * k..4 * k + 4];
      }
    }
  }

  /** The entries of the keys in the given order. */
  function AllEntryBytes(entries: Entries, keys: seq<U64>): seq<Byte>
    requires forall k <- keys :: k in entries
  {
    if keys == [] then []
    else
      var last := keys[|keys| - 1];
      AllEntryBytes(entries, keys[..|keys| - 1]) + EntryBytes(last, entries[last])
  }

  function FileBytes(entries: Entries, keys: seq<U64>): seq<Byte>
    requires forall k <- keys :: k in entries
  {
    WriteLe(|keys|, 8) + AllEntryBytes(entries, keys)
  }

  /** The file is the number of entries in eight bytes, then the entries one behind the other. */
  lemma FileLayout(entries: Entries, keys: seq<U64>, last: U64)
    requires last in entries && forall k <- keys :: k in entries
    ensures FileBytes(entries, []) == WriteLe(0, 8)
    ensures FileBytes(entries, keys + [last])[..8] == WriteLe(|keys| + 1, 8)
    ensures FileBytes(entries, keys + [last])[8..] == FileBytes(entries, keys)[8..] + EntryBytes(last, entries[last])
  {
    assert (keys + [last])[..|keys|] == keys;
  }

  /** An order in which a map may be iterated. */
  ghost predicate IsOrder(entries: Entries, keys: seq<U64>) {
    && (forall k :: k in keys <==> k in entries)
    && (forall i, j :: 0 <= i < j < |keys| ==> keys[i] != keys[j])
  }

  /** All counts fit into the 64 bits they are written in, as they do on any machine. */
  ghost predicate Representable(entries: Entries) {
    |entries| < 0x1_0000_0000_0000_0000
    && forall k <- entries.Keys :: entries[k].Some? ==> |entries[k].value| < 0x1_0000_0000_0000_0000
  }

  // ----- reading

  /** A value read, and the position behind it. */
  datatype Read<+T> = Read(value: T, pos: nat)

  function ReadU64(buf: seq<Byte>, pos: nat): Result<Read<U64>, IoError> {
    if pos + 8 > |buf| then Err(UnexpectedEof)
    else
      ReadLeBounded(buf[pos..pos + 8]);
      Pow256Values();
      var n: U64 := ReadLe(buf[pos..pos + 8]);
      Ok(Read(n, pos + 8))
  }

  function ReadF32(buf: seq<Byte>, pos: nat): Result<Read<F32>, IoError> {
    if pos + 4 > |buf| then Err(UnexpectedEof)
    else
      ReadLeBounded(buf[pos..pos + 4]);
      Pow256Values();
      var n: F32 := ReadLe(buf[pos..pos + 4]);
      Ok(Read(n, pos + 4))
  }

  function ReadFloats(buf: seq<Byte>, pos: nat, n: nat): Result<Read<seq<F32>>, IoError> {
    if n == 0 then Ok(Read([], pos))
    else
      match ReadFloats(buf, pos, n - 1)
      case Err(e) => Err(e)
      case Ok(r) =>
        match ReadF32(buf, r.pos)
        case Err(e) => Err(e)
        case Ok(x) => Ok(Read(r.value + [x.value], x.pos))
  }

  /** One entry; every flag but 0 announces data. */
  function ReadEntry(buf: seq<Byte>, pos: nat): Result<Read<(U64, Option<seq<F32>>)>, IoError> {
    match ReadU64(buf, pos)
    case Err(e) => Err(e)
    case Ok(i) =>
      if i.pos >= |buf| then Err(UnexpectedEof)
      else if buf[i.pos] == 0 then Ok(Read((i.value, None), i.pos + 1))
      else
        match ReadU64(buf, i.pos + 1)
        case Err(e) => Err(e)
        case Ok(len) =>
          match ReadFloats(buf, len.pos, len.value)
          case Err(e) => Err(e)
          case Ok(data) => Ok(Read((i.value, Some(data.value)), data.pos))
  }

  /** Whatever the flag is, if it is not 0 data follows as behind a 1. */
  lemma AnyFlagIsRead(buf: seq<Byte>, pos: nat, flag: Byte)
    requires pos + 8 < |buf| && flag != 0
    ensures ReadEntry(buf[pos + 8 := flag], pos) == ReadEntry(buf[pos + 8 := 1], pos)
  {
    var a, b := buf[pos + 8 := flag], buf[pos + 8 := 1];
    assert a[pos..pos + 8] == b[pos..pos + 8];
    U64ReadsAlike(a, b, pos + 9);
    var len := ReadU64(a, pos + 9);
    if len.Ok? {
      FloatsReadAlike(a, b, len.value.pos, len.value.value, pos + 9);
    }
  }

  lemma U64ReadsAlike(a: seq<Byte>, b: seq<Byte>, pos: nat)
    requires |a| == |b| && pos <= |a| && a[pos..] == b[pos..]
    ensures ReadU64(a, pos) == ReadU64(b, pos)
  {
    if pos + 8 <= |a| {
      assert a[pos..pos + 8] == a[pos..][..8] == b[pos..][..8] == b[pos..pos + 8];
    }
  }

  lemma {:induction false} FloatsReadAlike(a: seq<Byte>, b: seq<Byte>, pos: nat, n: nat, from: nat)
    requires |a| == |b| && from <= pos && from <= |a| && a[from..] == b[from..]
    ensures ReadFloats(a, pos, n) == ReadFloats(b, pos, n)
    ensures ReadFloats(a, pos, n).Ok? ==> ReadFloats(a, pos, n).value.pos >= pos
    decreases n
  {
    hide ReadLe;
    if n > 0 {
      FloatsReadAlike(a, b, pos, n - 1, from);
      var r := ReadFloats(a, pos, n - 1);
      if r.Ok? && r.value.pos + 4 <= |a| {
        var p := r.value.pos;
        assert a[p..p + 4] == a[from..][p - from..p - from + 4];
        assert b[p..p + 4] == b[from..][p - from..p - from + 4];
      }
    }
  }

  function ReadEntries(buf: seq<Byte>, pos: nat, n: nat): Result<Read<Entries>, IoError> {
    if n == 0 then Ok(Read(map[], pos))
    else
      match ReadEntries(buf, pos, n - 1)
      case Err(e) => Err(e)
      case Ok(r) =>
        match ReadEntry(buf, r.pos)
        case Err(e) => Err(e)
        case Ok(entry) => Ok(Read(r.value[entry.value.0 := entry.value.1], entry.pos))
  }

  function ReadFile(buf: seq<Byte>): Result<Read<Entries>, IoError> {
    match ReadU64(buf, 0)
    case Err(e) => Err(e)
    case Ok(n) => ReadEntries(buf, n.pos, n.value)
  }

  // ----- reading undoes writing

  /** The bytes stand in the buffer from a position on. */
  ghost predicate StandsAt(buf: seq<Byte>, pos: nat, s: seq<Byte>) {
    pos + |s| <= |buf| && buf[pos..pos + |s|] == s
  }

  lemma StandsInParts(buf: seq<Byte>, pos: nat, a: seq<Byte>, b: seq<Byte>)
    requires StandsAt(buf, pos, a + b)
    ensures StandsAt(buf, pos, a) && StandsAt(buf, pos + |a|, b)
  {
    assert buf[pos..pos + |a|] == (a + b)[..|a|];
    assert buf[pos + |a|..pos + |a| + |b|] == (a + b)[|a|..];
  }

  lemma ReadU64Written(buf: seq<Byte>, pos: nat, n: U64)
    requires StandsAt(buf, pos, WriteLe(n, 8))
    ensures ReadU64(buf, pos) == Ok(Read(n, pos + 8))
  {
    Pow256Values();
    ReadWriteLe(n, 8);
  }

  lemma {:induction false} ReadFloatsWritten(buf: seq<Byte>, pos: nat, data: seq<F32>)
    requires StandsAt(buf, pos, FloatBytes(data))
    ensures ReadFloats(buf, pos, |data|) == Ok(Read(data, pos + 4 * |data|))
    decreases |data|
  {
    hide StandsAt, ReadLe, WriteLe;
    if data != [] {
      var n := |data| - 1;
      StandsInParts(buf, pos, FloatBytes(data[..n]), WriteLe(data[n], 4));
      ReadFloatsWritten(buf, pos, data[..n]);
      ReadF32Written(buf, pos + 4 * n, data[n]);
      assert data == data[..n] + [data[n]];
    }
  }

  lemma ReadF32Written(buf: seq<Byte>, pos: nat, n: F32)
    requires StandsAt(buf, pos, WriteLe(n, 4))
    ensures ReadF32(buf, pos) == Ok(Read(n, pos + 4))
  {
    Pow256Values();
    ReadWriteLe(n, 4);
  }

  lemma ReadEntryWritten(buf: seq<Byte>, pos: nat, i: U64, data: Option<seq<F32>>)
    requires StandsAt(buf, pos, EntryBytes(i, data)) && (data.Some? ==> |data.value| < 0x1_0000_0000_0000_0000)
    ensures ReadEntry(buf, pos) == Ok(Read((i, data), pos + |EntryBytes(i, data)|))
  {
    match data {
      case None =>
        StandsInParts(buf, pos, WriteLe(i, 8), [0]);
        ReadU64Written(buf, pos, i);
      case Some(d) =>
        StandsInParts(buf, pos, WriteLe(i, 8) + [1] + WriteLe(|d|, 8), FloatBytes(d));
        StandsInParts(buf, pos, WriteLe(i, 8) + [1], WriteLe(|d|, 8));
        StandsInParts(buf, pos, WriteLe(i, 8), [1]);
        ReadU64Written(buf, pos, i);
        ReadU64Written(buf, pos + 9, |d|);
        ReadFloatsWritten(buf, pos + 17, d);
    }
  }

  ghost function Restrict(entries: Entries, keys: seq<U64>): Entries
    requires forall k <- keys :: k in entries
  {
    map k | k in keys :: entries[k]
  }

  lemma RestrictNothing(entries: Entries)
    ensures Restrict(entries, []) == map[]
  {
  }

  lemma RestrictOneMore(entries: Entries, keys: seq<U64>, last: U64)
    requires last in entries && forall k <- keys :: k in entries
    ensures Restrict(entries, keys)[last := entries[last]] == Restrict(entries, keys + [last])
  {
  }

  lemma {:induction false} ReadEntriesWritten(buf: seq<Byte>, pos: nat, entries: Entries, keys: seq<U64>)
    requires Representable(entries) && forall k <- keys :: k in entries
    requires StandsAt(buf, pos, AllEntryBytes(entries, keys))
    ensures ReadEntries(buf, pos, |keys|) == Ok(Read(Restrict(entries, keys), pos + |AllEntryBytes(entries, keys)|))
    decreases |keys|
  {
    hide StandsAt, ReadEntry, EntryBytes, Restrict;
    if keys == [] {
      RestrictNothing(entries);
    } else {
      var n := |keys| - 1;
      var most, last := keys[..n], keys[n];
      assert keys == most + [last];
      StandsInParts(buf, pos, AllEntryBytes(entries, most), EntryBytes(last, entries[last]));
      ReadEntriesWritten(buf, pos, entries, most);
      ReadEntryWritten(buf, pos + |AllEntryBytes(entries, most)|, last, entries[last]);
      RestrictOneMore(entries, most, last);
    }
  }

  lemma {:induction false} OrderCounts(keys: seq<U64>, domain: set<U64>)
    requires (forall k :: k in keys <==> k in domain) && forall i, j :: 0 <= i < j < |keys| ==> keys[i] != keys[j]
    ensures |keys| == |domain|
    decreases |keys|
  {
    if keys != [] {
      var n := |keys| - 1;
      var rest := domain - {keys[n]};
      forall k ensures k in keys[..n] <==> k in rest {
        assert keys == keys[..n] + [keys[n]];
      }
      OrderCounts(keys[..n], rest);
      assert domain == rest + {keys[n]};
    }
  }

  /** Loading a saved buffer gives back the map, whatever the order it was written in and whatever follows,
      and consumes exactly the bytes written. */
  lemma LoadUndoesSave(entries: Entries, keys: seq<U64>, rest: seq<Byte>)
    requires Representable(entries) && IsOrder(entries, keys)
    ensures ReadFile(FileBytes(entries, keys) + rest) == Ok(Read(entries, |FileBytes(entries, keys)|))
  {
    hide StandsAt, ReadEntries, AllEntryBytes, WriteLe, ReadU64;
    var file := FileBytes(entries, keys);
    var buf := file + rest;
    OrderCounts(keys, entries.Keys);
    assert StandsAt(buf, 0, file) by { PrefixStands(file, rest); }
    StandsInParts(buf, 0, WriteLe(|keys|, 8), AllEntryBytes(entries, keys));
    ReadU64Written(buf, 0, |keys|);
    ReadEntriesWritten(buf, 8, entries, keys);
    assert Restrict(entries, keys) == entries;
  }

  lemma PrefixStands(s: seq<Byte>, rest: seq<Byte>)
    ensures StandsAt(s + rest, 0, s)
  {
  }

  // ----- truncated buffers

  /** A successful read of part of a buffer stays within the part, and reading the whole buffer gives the same. */
  lemma U64Extends(part: seq<Byte>, rest: seq<Byte>, pos: nat)
    requires ReadU64(part, pos).Ok?
    ensures ReadU64(part + rest, pos) == ReadU64(part, pos) && ReadU64(part, pos).value.pos <= |part|
  {
    assert (part + rest)[pos..pos + 8] == part[pos..pos + 8];
  }

  lemma {:induction false} FloatsExtend(part: seq<Byte>, rest: seq<Byte>, pos: nat, n: nat)
    requires pos <= |part| && ReadFloats(part, pos, n).Ok?
    ensures ReadFloats(part + rest, pos, n) == ReadFloats(part, pos, n) && ReadFloats(part, pos, n).value.pos <= |part|
    decreases n
  {
    hide ReadLe;
    if n > 0 {
      FloatsExtend(part, rest, pos, n - 1);
      var p := ReadFloats(part, pos, n - 1).value.pos;
      assert (part + rest)[p..p + 4] == part[p..p + 4];
    }
  }

  lemma EntryExtends(part: seq<Byte>, rest: seq<Byte>, pos: nat)
    requires ReadEntry(part, pos).Ok?
    ensures ReadEntry(part + rest, pos) == ReadEntry(part, pos) && ReadEntry(part, pos).value.pos <= |part|
  {
    hide ReadU64, ReadFloats;
    U64Extends(part, rest, pos);
    var p := ReadU64(part, pos).value.pos;
    if part[p] != 0 {
      U64Extends(part, rest, p + 1);
      var len := ReadU64(part, p + 1).value;
      FloatsExtend(part, rest, len.pos, len.value);
    }
  }

  lemma {:induction false} EntriesExtend(part: seq<Byte>, rest: seq<Byte>, pos: nat, n: nat)
    requires pos <= |part| && ReadEntries(part, pos, n).Ok?
    ensures ReadEntries(part + rest, pos, n) == ReadEntries(part, pos, n)
    ensures ReadEntries(part, pos, n).value.pos <= |part|
    decreases n
  {
    hide ReadEntry;
    if n > 0 {
      EntriesExtend(part, rest, pos, n - 1);
      EntryExtends(part, rest, ReadEntries(part, pos, n - 1).value.pos);
    }
  }

  /** A truncated file never loads as a partial map: every proper prefix of a saved buffer is an error. */
  lemma TruncatedFails(entries: Entries, keys: seq<U64>, n: nat)
    requires Representable(entries) && IsOrder(entries, keys) && n < |FileBytes(entries, keys)|
    ensures ReadFile(FileBytes(entries, keys)[..n]).Err?
  {
    hide ReadU64, ReadEntries, FileBytes;
    var file := FileBytes(entries, keys);
    var part, rest := file[..n], file[n..];
    LoadUndoesSave(entries, keys, []);
    assert file + [] == file == part + rest;
    if ReadFile(part).Ok? {
      U64Extends(part, rest, 0);
      var count := ReadU64(part, 0).value;
      EntriesExtend(part, rest, count.pos, count.value);
    }
  }

  // ----- the loops over the buffer

  method WriteEntry(i: U64, data: Option<seq<F32>>) returns (buf: seq<Byte>)
    ensures buf == EntryBytes(i, data)
  {
    hide WriteLe;
    buf := WriteLe(i, 8) + [if data.Some? then 1 else 0];
    if data.Some? {
      buf := buf + WriteLe(|data.value|, 8);
      ghost var head := buf;
      for n := 0 to |data.value|
        invariant buf == head + FloatBytes(data.value[..n])
      {
        assert data.value[..n + 1][..n] == data.value[..n];
        buf := buf + WriteLe(data.value[n], 4);
      }
      assert data.value[..|data.value|] == data.value;
    }
  }

  /** The keys of a set, each once. */
  ghost predicate Lists(keys: seq<U64>, domain: set<U64>) {
    && (forall k :: k in keys <==> k in domain)
    && (forall i, j :: 0 <= i < j < |keys| ==> keys[i] != keys[j])
  }

  lemma ListsNothing(entries: Entries)
    ensures Lists([], {}) && AllEntryBytes(entries, []) == []
  {
  }

  lemma ListsOneMore(entries: Entries, keys: seq<U64>, domain: set<U64>, k: U64)
    requires Lists(keys, domain) && k !in domain && k in entries && forall x <- keys :: x in entries
    ensures Lists(keys + [k], domain + {k})
    ensures AllEntryBytes(entries, keys + [k]) == AllEntryBytes(entries, keys) + EntryBytes(k, entries[k])
  {
    hide EntryBytes;
    assert (keys + [k])[..|keys|] == keys;
  }

  lemma ListsAll(entries: Entries, keys: seq<U64>, domain: set<U64>)
    requires Lists(keys, domain) && domain == entries.Keys
    ensures IsOrder(entries, keys) && forall k :: k in keys <==> k in entries.Keys
  {
  }

  /** The bytes of the file; the entries in whatever order the map is iterated. */
  method SaveImatrix(entries: Entries, extension: Option<string>)
    returns (r: Result<seq<Byte>, IoError>, ghost keys: seq<U64>)
    requires Representable(entries)
    ensures r.Err? <==> extension.Some? && extension.value != "cimatrix"
    ensures r.Ok? ==> IsOrder(entries, keys) && r.value == FileBytes(entries, keys)
  {
    hide WriteLe, EntryBytes, AllEntryBytes, Lists;
    keys := [];
    if extension.Some? && extension.value != "cimatrix" {
      return Err(WrongExtension), keys;
    }
    var buf := WriteLe(|entries|, 8);
    var remaining := entries.Keys;
    ghost var done: set<U64> := {};
    ListsNothing(entries);
    while remaining != {}
      invariant remaining <= entries.Keys && done == entries.Keys - remaining
      invariant Lists(keys, done) && forall k <- keys :: k in entries
      invariant buf == WriteLe(|entries|, 8) + AllEntryBytes(entries, keys)
    {
      var i :| i in remaining;
      remaining := remaining - {i};
      var entry := WriteEntry(i, entries[i]);
      ListsOneMore(entries, keys, done, i);
      buf, keys, done := buf + entry, keys + [i], done + {i};
    }
    ListsAll(entries, keys, done);
    OrderCounts(keys, entries.Keys);
    r := Ok(buf);
  }

  method LoadFloats(buf: seq<Byte>, start: nat, n: nat) returns (r: Result<Read<seq<F32>>, IoError>)
    ensures r == ReadFloats(buf, start, n)
  {
    var data, pos := [], start;
    for i := 0 to n
      invariant ReadFloats(buf, start, i) == Ok(Read(data, pos))
    {
      var x := ReadF32(buf, pos);
      if x.Err? {
        FloatsFail(buf, start, i + 1, n);
        return Err(x.error);
      }
      data, pos := data + [x.value.value], x.value.pos;
    }
    r := Ok(Read(data, pos));
  }

  lemma {:induction false} FloatsFail(buf: seq<Byte>, pos: nat, i: nat, n: nat)
    requires i <= n && ReadFloats(buf, pos, i).Err?
    ensures ReadFloats(buf, pos, n) == ReadFloats(buf, pos, i)
    decreases n
  {
    if i < n {
      FloatsFail(buf, pos, i, n - 1);
    }
  }

  lemma {:induction false} EntriesFail(buf: seq<Byte>, pos: nat, i: nat, n: nat)
    requires i <= n && ReadEntries(buf, pos, i).Err?
    ensures ReadEntries(buf, pos, n) == ReadEntries(buf, pos, i)
    decreases n
  {
    if i < n {
      EntriesFail(buf, pos, i, n - 1);
    }
  }

  method LoadImatrix(buf: seq<Byte>) returns (r: Result<Entries, IoError>)
    ensures r == match ReadFile(buf) case Ok(read) => Ok(read.value) case Err(e) => Err(e)
  {
    hide ReadU64, ReadFloats;
    var numEntries := ReadU64(buf, 0);
    if numEntries.Err? {
      return Err(numEntries.error);
    }
    ghost var start := numEntries.value.pos;
    var entries: Entries, pos: nat := map[], numEntries.value.pos;
    for n := 0 to numEntries.value.value
      invariant ReadEntries(buf, start, n) == Ok(Read(entries, pos))
    {
      var i := ReadU64(buf, pos);
      if i.Err? {
        EntriesFail(buf, start, n + 1, numEntries.value.value);
        return Err(i.error);
      }
      pos := i.value.pos;
      if pos >= |buf| {
        EntriesFail(buf, start, n + 1, numEntries.value.value);
        return Err(UnexpectedEof);
      }
      var hasData := buf[pos] != 0;
      pos := pos + 1;
      if hasData {
        var lenData := ReadU64(buf, pos);
        if lenData.Err? {
          EntriesFail(buf, start, n + 1, numEntries.value.value);
          return Err(lenData.error);
        }
        var data := LoadFloats(buf, lenData.value.pos, lenData.value.value);
        if data.Err? {
          EntriesFail(buf, start, n + 1, numEntries.value.value);
          return Err(data.error);
        }
        entries, pos := entries[i.value.value := Some(data.value.value)], data.value.pos;
      } else {
        entries := entries[i.value.value := None];
      }
    }
    r := Ok(entries);
  }

  /** The two methods together: what was saved loads back. */
  method SaveAndLoad(entries: Entries) returns (loaded: Result<Entries, IoError>)
    requires Representable(entries)
    ensures loaded == Ok(entries)
  {
    var saved, keys := SaveImatrix(entries, Some("cimatrix"));
    LoadUndoesSave(entries, keys, []);
    assert saved.value + [] == saved.value;
    loaded := LoadImatrix(saved.value);
  }
}
