/** Request bodies kept in memory or in disk files, and the usage counters behind the disk limit. */
module BodyStorage {
  import opened Options

  newtype byte = x: int | 0 <= x < 256

  const MEGABYTE: nat := 1048576

  datatype Error = StorageClosed | BodyTooLarge | ReadFailed | DiskFailed | ShortFile | BadSeek | EndOfFile

  datatype Whence = FromStart | FromCurrent | FromEnd

  /** How the file system behaves while a cache file is made. */
  datatype Disk = Works | CannotWrite | CannotSeek

  /** What a reader yields: some bytes, then the end or a failure. */
  datatype Stream = Stream(bytes: seq<byte>, fails: bool)

  datatype Storage = InMemory(m: MemoryStorage) | OnDisk(d: DiskStorage) {
    function Ref(): object {
      match this
      case InMemory(m) => m
      case OnDisk(d) => d
    }

    function Size(): nat {
      match this
      case InMemory(m) => m.size
      case OnDisk(d) => d.size
    }

    predicate Closed()
      reads Ref()
    {
      match this
      case InMemory(m) => m.closed
      case OnDisk(d) => d.closed
    }

    function Cache(): BodyCache {
      match this
      case InMemory(m) => m.cache
      case OnDisk(d) => d.cache
    }

    /** The stored bytes. */
    function Contents(): seq<byte>
      reads Ref()
    {
      match this
      case InMemory(m) => m.data
      case OnDisk(d) => d.contents
    }
  }

  /** Where a read of at most `n` ends. */
  function ReadEnd(size: nat, pos: nat, n: nat): nat {
    if pos + n <= size then pos + n else size
  }

  /** The bytes that a read of at most `n` returns at a position. */
  function Chunk(data: seq<byte>, pos: nat, n: nat): seq<byte> {
    if pos >= |data| then [] else data[pos..ReadEnd(|data|, pos, n)]
  }

  function SeekTarget(size: nat, pos: nat, offset: int, whence: Whence): int {
    match whence
    case FromStart => offset
    case FromCurrent => pos + offset
    case FromEnd => size + offset
  }

  class MemoryStorage {
    const data: seq<byte>
    const size: nat
    const cache: BodyCache
    var pos: nat
    var closed: bool

    constructor (data: seq<byte>, cache: BodyCache)
      ensures this.data == data && size == |data| && this.cache == cache && pos == 0 && !closed
    {
      this.data, this.size, this.cache := data, |data|, cache;
      pos, closed := 0, false;
    }

    method Read(n: nat) returns (r: Result<seq<byte>, Error>)
      modifies this`pos
      ensures r == if closed then Err(StorageClosed) else if old(pos) >= |data| then Err(EndOfFile)
                   else Ok(Chunk(data, old(pos), n))
      ensures pos == old(pos) + (if r.Ok? then |r.value| else 0)
    {
      if closed {
        return Err(StorageClosed);
      }
      if pos >= |data| {
        return Err(EndOfFile);
      }
      var count := if pos + n <= |data| then n else |data| - pos;
      assert data[pos..pos + count] == Chunk(data, pos, n);
      r := Ok(data[pos..pos + count]);
      pos := pos + count;
    }

    method Seek(offset: int, whence: Whence) returns (r: Result<nat, Error>)
      modifies this`pos
      ensures var target := offset + (match whence
                                      case FromStart => 0
                                      case FromCurrent => old(pos)
                                      case FromEnd => |data|);
              r == if closed then Err(StorageClosed) else if target < 0 then Err(BadSeek) else Ok(target)
      ensures pos == if r.Ok? then r.value else old(pos)
    {
      if closed {
        return Err(StorageClosed);
      }
      var target := SeekTarget(|data|, pos, offset, whence);
      if target < 0 {
        return Err(BadSeek);
      }
      pos := target;
      return Ok(target);
    }

    method Bytes() returns (r: Result<seq<byte>, Error>)
      ensures r == if closed then Err(StorageClosed) else Ok(data)
    {
      return if closed then Err(StorageClosed) else Ok(data);
    }

    /** Closing twice is closing once. */
    method Close()
      requires cache.Valid() && InMemory(this) in cache.created
      modifies this`closed, cache`memoryBuffers, cache`memoryUsage
      ensures closed && cache.Valid()
      ensures cache.Open() == old(cache.Open()) - {InMemory(this)}
      ensures cache.memoryBuffers == old(cache.memoryBuffers) - (if old(closed) then 0 else 1)
      ensures cache.memoryUsage == old(cache.memoryUsage) - (if old(closed) then 0 else size)
    {
      hide Total, OnDiskOf, InMemoryOf;
      if !closed {
        cache.ClosingOne(InMemory(this));
        closed := true;
        assert cache.Open() == old(cache.Open()) - {InMemory(this)};
        cache.DecrementMemoryBuffers(size);
        assert cache.Open() == old(cache.Open()) - {InMemory(this)};
      }
    }
  }

  class DiskStorage {
    const size: nat
    const cache: BodyCache
    var contents: seq<byte>
    var pos: nat
    var closed: bool

    constructor (data: seq<byte>, cache: BodyCache)
      ensures contents == data && size == |data| && this.cache == cache && pos == 0 && !closed
    {
      contents, this.size, this.cache := data, |data|, cache;
      pos, closed := 0, false;
    }

    method Read(n: nat) returns (r: Result<seq<byte>, Error>)
      modifies this`pos
      ensures r == if closed then Err(StorageClosed) else if n > 0 && old(pos) >= |contents| then Err(EndOfFile)
                   else Ok(Chunk(contents, old(pos), n))
      ensures pos == old(pos) + (if r.Ok? then |r.value| else 0)
    {
      if closed {
        return Err(StorageClosed);
      }
      if n == 0 {
        assert Chunk(contents, pos, 0) == [];
        return Ok([]);
      }
      if pos >= |contents| {
        return Err(EndOfFile);
      }
      var count := if pos + n <= |contents| then n else |contents| - pos;
      assert contents[pos..pos + count] == Chunk(contents, pos, n);
      r := Ok(contents[pos..pos + count]);
      pos := pos + count;
    }

    method Seek(offset: int, whence: Whence) returns (r: Result<nat, Error>)
      modifies this`pos
      ensures var target := offset + (match whence
                                      case FromStart => 0
                                      case FromCurrent => old(pos)
                                      case FromEnd => |contents|);
              r == if closed then Err(StorageClosed) else if target < 0 then Err(BadSeek) else Ok(target)
      ensures pos == if r.Ok? then r.value else old(pos)
    {
      if closed {
        return Err(StorageClosed);
      }
      var target := SeekTarget(|contents|, pos, offset, whence);
      if target < 0 {
        return Err(BadSeek);
      }
      pos := target;
      return Ok(target);
    }

    /** Reads the whole file and comes back to where the cursor was. A file shorter than the body is
        an error, and then the cursor stays where the read stopped. */
    method Bytes() returns (r: Result<seq<byte>, Error>)
      modifies this`pos
      ensures r == if closed then Err(StorageClosed) else if |contents| < size then Err(ShortFile)
                   else Ok(contents[..size])
      ensures pos == if r == Err(ShortFile) then |contents| else old(pos)
    {
      if closed {
        return Err(StorageClosed);
      }
      var currentPos := pos;
      pos := 0;
      var data: seq<byte> := [];
      while |data| < size && pos < |contents|
        invariant pos == |data| <= size && |data| <= |contents| && data == contents[..pos]
      {
        data := data + [contents[pos]];
        pos := pos + 1;
      }
      if |data| < size {
        return Err(ShortFile);
      }
      pos := currentPos;
      return Ok(data);
    }

    /** Closing twice is closing once. */
    method Close()
      requires cache.Valid() && OnDisk(this) in cache.created
      modifies this`closed, cache`diskFiles, cache`diskUsage
      ensures closed && cache.Valid()
      ensures cache.Open() == old(cache.Open()) - {OnDisk(this)}
      ensures cache.diskFiles == old(cache.diskFiles) - (if old(closed) then 0 else 1)
      ensures cache.diskUsage == old(cache.diskUsage) - (if old(closed) then 0 else size)
    {
      hide Total, OnDiskOf, InMemoryOf;
      if !closed {
        cache.ClosingOne(OnDisk(this));
        closed := true;
        assert cache.Open() == old(cache.Open()) - {OnDisk(this)};
        cache.DecrementDiskFiles(size);
        assert cache.Open() == old(cache.Open()) - {OnDisk(this)};
      }
    }
  }

  // ----- the size of a set of storages -----

  ghost function Total(s: set<Storage>): nat {
    if s == {} then
      0
    else
      var x :| x in s;
      x.Size() + Total(s - {x})
  }

  lemma {:induction false} TotalWithout(s: set<Storage>, x: Storage)
    requires x in s
    ensures Total(s) == x.Size() + Total(s - {x})
    decreases s
  {
    var y :| y in s && Total(s) == y.Size() + Total(s - {y});
    if y != x {
      TotalWithout(s - {y}, x);
      TotalWithout(s - {x}, y);
      assert s - {y} - {x} == s - {x} - {y};
    }
  }

  lemma TotalWith(s: set<Storage>, x: Storage)
    requires x !in s
    ensures Total(s + {x}) == x.Size() + Total(s) && |s + {x}| == |s| + 1
  {
    TotalWithout(s + {x}, x);
    assert s + {x} - {x} == s;
  }

  ghost function OnDiskOf(s: set<Storage>): set<Storage> {
    set x | x in s && x.OnDisk?
  }

  ghost function InMemoryOf(s: set<Storage>): set<Storage> {
    set x | x in s && x.InMemory?
  }

  /** The process-wide configuration and counters. */
  class BodyCache {
    const enabled: bool
    const thresholdMB: int
    const maxSizeMB: int
    var diskFiles: int
    var diskUsage: int
    var memoryBuffers: int
    var memoryUsage: int
    var diskHits: nat
    var memoryHits: nat
    ghost var created: set<Storage>

    constructor (enabled: bool, thresholdMB: int, maxSizeMB: int)
      ensures this.enabled == enabled && this.thresholdMB == thresholdMB && this.maxSizeMB == maxSizeMB
      ensures Valid() && created == {} && diskUsage == 0 && diskHits == memoryHits == 0
    {
      this.enabled, this.thresholdMB, this.maxSizeMB := enabled, thresholdMB, maxSizeMB;
      diskFiles, diskUsage, memoryBuffers, memoryUsage, diskHits, memoryHits := 0, 0, 0, 0, 0, 0;
      created := {};
    }

    ghost function Refs(): set<object>
      reads this
    {
      set s | s in created :: s.Ref()
    }

    /** The storages that are not closed. */
    ghost function Open(): set<Storage>
      reads this, Refs()
    {
      set s | s in created && !s.Closed()
    }

    /** The counters are the number and the total size of the open storages, and every storage holds
        a body of its recorded size. */
    ghost predicate Valid()
      reads this, Refs()
    {
      && (forall s :: s in created ==> s.Cache() == this && |s.Contents()| == s.Size())
      && diskFiles == |OnDiskOf(Open())| && diskUsage == Total(OnDiskOf(Open()))
      && memoryBuffers == |InMemoryOf(Open())| && memoryUsage == Total(InMemoryOf(Open()))
    }

    function Threshold(): (bytes: int)
      ensures bytes == thresholdMB * 1048576
    {
      thresholdMB * MEGABYTE
    }

    function MaxBytes(): (bytes: int)
      ensures bytes == maxSizeMB * 1048576
    {
      maxSizeMB * MEGABYTE
    }

    predicate Available(requestSize: int)
      reads this
    {
      enabled && diskUsage + requestSize <= MaxBytes()
    }

    method DecrementDiskFiles(size: nat)
      modifies this`diskFiles, this`diskUsage
      ensures diskFiles == if old(diskFiles) < 1 then 0 else old(diskFiles) - 1
      ensures diskUsage == if old(diskUsage) < size then 0 else old(diskUsage) - size
    {
      diskFiles := diskFiles - 1;
      if diskFiles < 0 {
        diskFiles := 0;
      }
      diskUsage := diskUsage - size;
      if diskUsage < 0 {
        diskUsage := 0;
      }
    }

    method DecrementMemoryBuffers(size: nat)
      modifies this`memoryBuffers, this`memoryUsage
      ensures memoryBuffers == old(memoryBuffers) - 1 && memoryUsage == old(memoryUsage) - size
    {
      memoryBuffers := memoryBuffers - 1;
      memoryUsage := memoryUsage - size;
    }

    /** The sums without an open storage. */
    lemma ClosingOne(s: Storage)
      requires s in Open()
      ensures s.OnDisk? ==>
                && OnDiskOf(Open() - {s}) == OnDiskOf(Open()) - {s} && InMemoryOf(Open() - {s}) == InMemoryOf(Open())
                && Total(OnDiskOf(Open())) == s.Size() + Total(OnDiskOf(Open() - {s}))
                && |OnDiskOf(Open())| == 1 + |OnDiskOf(Open() - {s})|
      ensures s.InMemory? ==>
                && InMemoryOf(Open() - {s}) == InMemoryOf(Open()) - {s} && OnDiskOf(Open() - {s}) == OnDiskOf(Open())
                && Total(InMemoryOf(Open())) == s.Size() + Total(InMemoryOf(Open() - {s}))
                && |InMemoryOf(Open())| == 1 + |InMemoryOf(Open() - {s})|
    {
      if s.OnDisk? {
        assert OnDiskOf(Open() - {s}) == OnDiskOf(Open()) - {s} && InMemoryOf(Open() - {s}) == InMemoryOf(Open());
        TotalWithout(OnDiskOf(Open()), s);
      } else {
        assert InMemoryOf(Open() - {s}) == InMemoryOf(Open()) - {s} && OnDiskOf(Open() - {s}) == OnDiskOf(Open());
        TotalWithout(InMemoryOf(Open()), s);
      }
    }

    /** The sums with one more open storage. */
    lemma OpeningOne(before: set<Storage>, s: Storage)
      requires s !in before
      ensures s.OnDisk? ==>
                && Total(OnDiskOf(before + {s})) == s.Size() + Total(OnDiskOf(before))
                && InMemoryOf(before + {s}) == InMemoryOf(before)
                && |OnDiskOf(before + {s})| == 1 + |OnDiskOf(before)|
      ensures s.InMemory? ==>
                && Total(InMemoryOf(before + {s})) == s.Size() + Total(InMemoryOf(before))
                && OnDiskOf(before + {s}) == OnDiskOf(before)
                && |InMemoryOf(before + {s})| == 1 + |InMemoryOf(before)|
    {
      if s.OnDisk? {
        TotalWith(OnDiskOf(before), s);
        assert OnDiskOf(before + {s}) == OnDiskOf(before) + {s} && InMemoryOf(before + {s}) == InMemoryOf(before);
      } else {
        TotalWith(InMemoryOf(before), s);
        assert InMemoryOf(before + {s}) == InMemoryOf(before) + {s} && OnDiskOf(before + {s}) == OnDiskOf(before);
      }
    }

    method NewMemoryStorage(data: seq<byte>) returns (storage: Storage)
      requires Valid()
      modifies this`memoryBuffers, this`memoryUsage, this`created
      ensures Valid() && storage.InMemory? && fresh(storage.m)
      ensures created == old(created) + {storage} && Open() == old(Open()) + {storage}
      ensures storage.m.data == data && storage.m.pos == 0
    {
      hide Total, OnDiskOf, InMemoryOf;
      memoryBuffers := memoryBuffers + 1;
      memoryUsage := memoryUsage + |data|;
      var m := new MemoryStorage(data, this);
      storage := InMemory(m);
      OpeningOne(old(Open()), storage);
      created := created + {storage};
      assert Open() == old(Open()) + {storage};
    }

    method NewDiskStorage(data: seq<byte>, disk: Disk) returns (r: Result<Storage, Error>)
      requires Valid()
      modifies this`diskFiles, this`diskUsage, this`created
      ensures Valid()
      ensures r.Err? <==> !disk.Works?
      ensures r.Err? ==> r.error == DiskFailed && created == old(created)
                         && diskUsage == old(diskUsage) && Open() == old(Open())
      ensures r.Ok? ==> r.value.OnDisk? && fresh(r.value.d)
                        && created == old(created) + {r.value} && Open() == old(Open()) + {r.value}
                        && r.value.d.contents == data && r.value.d.pos == 0
                        && diskUsage == old(diskUsage) + |data|
    {
      hide Total, OnDiskOf, InMemoryOf;
      if disk.CannotWrite? || disk.CannotSeek? {
        return Err(DiskFailed);
      }
      diskFiles := diskFiles + 1;
      diskUsage := diskUsage + |data|;
      var d := new DiskStorage(data, this);
      var storage := OnDisk(d);
      OpeningOne(old(Open()), storage);
      created := created + {storage};
      assert Open() == old(Open()) + {storage};
      return Ok(storage);
    }

    /** Never fails, holds exactly the data, and keeps the disk usage within the limit. */
    method CreateBodyStorage(data: seq<byte>, disk: Disk) returns (storage: Storage)
      requires Valid()
      modifies this`diskFiles, this`diskUsage, this`memoryBuffers, this`memoryUsage, this`created
      ensures Valid() && fresh(storage.Ref())
      ensures created == old(created) + {storage} && Open() == old(Open()) + {storage}
      ensures storage.Contents() == data && storage.Size() == |data|
      ensures storage.OnDisk? <==>
                enabled && |data| >= Threshold() && old(diskUsage) + |data| <= MaxBytes() && disk.Works?
      ensures diskUsage == old(diskUsage) + (if storage.OnDisk? then |data| else 0)
      ensures storage.OnDisk? ==> diskUsage <= MaxBytes()
    {
      hide Total, OnDiskOf, InMemoryOf;
      if enabled && |data| >= Threshold() && Available(|data|) {
        var r := NewDiskStorage(data, disk);
        match r {
          case Ok(made) => storage := made;
          case Err(_) => storage := NewMemoryStorage(data);
        }
      } else {
        storage := NewMemoryStorage(data);
      }
    }

    /** Reading a request body: exactly the bodies within the limit become storages, unless the reader
        or the disk fails. */
    method CreateBodyStorageFromReader(stream: Stream, contentLength: int, maxBytes: int, disk: Disk)
        returns (r: Result<Storage, Error>)
      requires Valid()
      modifies this`diskFiles, this`diskUsage, this`memoryBuffers, this`memoryUsage, this`created,
               this`diskHits, this`memoryHits
      ensures Valid()
      ensures r.Err? ==> created == old(created) && Open() == old(Open()) && diskUsage == old(diskUsage)
      ensures var streamed := enabled && contentLength > 0 && contentLength >= Threshold()
                              && old(diskUsage) + contentLength <= MaxBytes();
              && (r == Err(BodyTooLarge) <==> |stream.bytes| > maxBytes && !(streamed && disk.CannotWrite?))
              && (r == Err(ReadFailed) <==> !streamed && |stream.bytes| <= maxBytes && stream.fails)
              && (r == Err(DiskFailed) <==>
                    streamed &&
                        (disk.CannotWrite? || (|stream.bytes| <= maxBytes && (stream.fails || disk.CannotSeek?))))
              && (streamed && r.Ok? ==> r.value.OnDisk?)
              && (!streamed && r.Ok? && r.value.OnDisk? ==> diskUsage <= MaxBytes())
      ensures r.Ok? || r.error in {BodyTooLarge, ReadFailed, DiskFailed}
      ensures diskHits == old(diskHits) + (if r.Ok? && r.value.OnDisk? then 1 else 0)
      ensures memoryHits == old(memoryHits) + (if r.Ok? && r.value.InMemory? then 1 else 0)
      ensures diskUsage == UsageAfter(Limits(enabled, Threshold(), MaxBytes()), old(diskUsage),
                                      stream, contentLength, maxBytes, disk)
      ensures r.Ok? ==>
                && fresh(r.value.Ref())
                && created == old(created) + {r.value} && Open() == old(Open()) + {r.value}
                && r.value.Contents() == stream.bytes && |stream.bytes| <= maxBytes
                && diskUsage == old(diskUsage) + (if r.value.OnDisk? then |stream.bytes| else 0)
    {
      hide Total, OnDiskOf, InMemoryOf;
      if enabled && contentLength > 0 && contentLength >= Threshold() && Available(contentLength) {
        if disk.CannotWrite? {
          return Err(DiskFailed);
        }
        var written := LimitedRead(stream, maxBytes + 1);
        if written.fails {
          return Err(DiskFailed);
        }
        if |written.bytes| > maxBytes {
          return Err(BodyTooLarge);
        }
        r := NewDiskStorage(written.bytes, disk);
        if r.Ok? {
          ghost var open := Open();
          diskHits := diskHits + 1;
          assert Open() == open;
        }
        return;
      }
      var data := LimitedRead(stream, maxBytes + 1);
      if data.fails {
        return Err(ReadFailed);
      }
      if |data.bytes| > maxBytes {
        return Err(BodyTooLarge);
      }
      var storage := CreateBodyStorage(data.bytes, disk);
      ghost var open := Open();
      if storage.OnDisk? {
        diskHits := diskHits + 1;
      } else {
        memoryHits := memoryHits + 1;
      }
      assert Open() == open;
      return Ok(storage);
    }
  }

  /** Reading to the end through a limit: a failure is seen only if the limit is not reached first. */
  function LimitedRead(stream: Stream, limit: int): Stream {
    if limit <= 0 then Stream([], false)
    else if |stream.bytes| >= limit then Stream(stream.bytes[..limit], false)
    else stream
  }

  // ----- when the disk limit holds -----

  datatype Limits = Limits(enabled: bool, threshold: int, max: int)

  /** The branch that streams to disk is taken on the strength of the declared length. */
  predicate Streams(limits: Limits, usage: int, contentLength: int) {
    && limits.enabled && contentLength > 0 && contentLength >= limits.threshold
    && usage + contentLength <= limits.max
  }

  /** The disk usage after reading a request body. */
  function UsageAfter(limits: Limits, usage: int, stream: Stream, contentLength: int, maxBytes: int, disk: Disk): int {
    var size := |stream.bytes|;
    if size > maxBytes || stream.fails || !disk.Works? then
      usage
    else if Streams(limits, usage, contentLength) then
      usage + size
    else if limits.enabled && size >= limits.threshold && usage + size <= limits.max then
      usage + size
    else
      usage
  }

  /** When bodies of a declared length can be streamed to disk at all, every body from every state
      within the limit leaves the usage within the limit if and only if bodies longer than declared are
      refused. */
  lemma LimitHoldsIff(limits: Limits, contentLength: int, maxBytes: int)
    requires Streams(limits, 0, contentLength)
    ensures maxBytes <= contentLength <==>
            forall usage: nat, stream, disk :: usage <= limits.max ==>
              UsageAfter(limits, usage, stream, contentLength, maxBytes, disk) <= limits.max
  {
    if maxBytes > contentLength {
      var usage: nat := limits.max - contentLength;
      var stream := Stream(seq(maxBytes, _ => 0 as byte), false);
      assert UsageAfter(limits, usage, stream, contentLength, maxBytes, Works) == usage + maxBytes > limits.max;
    }
  }

  // ----- whole runs -----

  datatype Op =
    | Create(data: seq<byte>, disk: Disk)
    | CreateFromReader(stream: Stream, contentLength: int, maxBytes: int, disk: Disk)
    | Close(index: nat)

  /** A body no longer than its declared length, or one that may not be. */
  predicate Honest(op: Op) {
    op.CreateFromReader? && op.contentLength > 0 ==>
      |op.stream.bytes| <= op.contentLength || op.maxBytes <= op.contentLength
  }

  /** `made[i]` storages exist before operation `i`. */
  ghost predicate Counts(ops: seq<Op>, made: seq<nat>) {
    && |made| == |ops| + 1 && made[0] == 0
    && forall i :: 0 <= i < |ops| ==> Adds(ops[i], made[i], made[i + 1])
  }

  /** What an operation adds: a body that is read adds a storage only if it is complete and within its
      limit, and then fails to only if the disk does. */
  predicate Adds(op: Op, before: nat, after: nat) {
    match op
    case Create(_, _) => after == before + 1
    case CreateFromReader(stream, _, maxBytes, disk) =>
      && before <= after <= before + 1
      && (after > before ==> |stream.bytes| <= maxBytes && !stream.fails)
      && (|stream.bytes| <= maxBytes && !stream.fails && disk.Works? ==> after > before)
    case Close(_) => after == before
  }

  /** One of the operations closes storage `j`, which exists by then. */
  ghost predicate ClosedBy(ops: seq<Op>, made: seq<nat>, j: nat)
    requires |made| >= |ops|
  {
    exists i :: 0 <= i < |ops| && ops[i] == Close(j) && j < made[i]
  }

  lemma CountsSnoc(ops: seq<Op>, made: seq<nat>, op: Op, next: nat)
    requires Counts(ops, made) && Adds(op, made[|ops|], next)
    ensures Counts(ops + [op], made + [next])
    ensures forall j: nat :: ClosedBy(ops + [op], made + [next], j) <==>
                               ClosedBy(ops, made, j) || (op == Close(j) && j < made[|ops|])
  {
    var more, made' := ops + [op], made + [next];
    forall j: nat
      ensures ClosedBy(more, made', j) <==> ClosedBy(ops, made, j) || (op == Close(j) && j < made[|ops|])
    {
      if ClosedBy(ops, made, j) {
        var i :| 0 <= i < |ops| && ops[i] == Close(j) && j < made[i];
        assert more[i] == Close(j) && j < made'[i];
      }
      if op == Close(j) && j < made[|ops|] {
        assert more[|ops|] == Close(j) && j < made'[|ops|];
      }
    }
  }

  /** Nothing closes a storage before it exists. */
  lemma {:induction false} NotYetClosed(ops: seq<Op>, made: seq<nat>, j: nat, n: nat)
    requires Counts(ops, made) && n <= |ops| && made[|ops|] <= j
    ensures made[n] <= made[|ops|]
    ensures n == 0 ==> !ClosedBy(ops, made, j)
    decreases |ops| - n
  {
    if n < |ops| {
      NotYetClosed(ops, made, j, n + 1);
      assert Adds(ops[n], made[n], made[n + 1]);
    }
    if n == 0 {
      forall i: nat | 0 < i < |ops|
        ensures made[i] <= j
      {
        NotYetClosed(ops, made, j, i);
      }
    }
  }

  ghost predicate Distinct(storages: seq<Storage>) {
    forall i, j :: 0 <= i < j < |storages| ==> storages[i].Ref() != storages[j].Ref()
  }

  predicate UsageFits(cache: BodyCache)
    reads cache
  {
    cache.diskUsage == 0 || cache.diskUsage <= cache.MaxBytes()
  }

  ghost predicate Lists(cache: BodyCache, storages: seq<Storage>)
    reads cache
  {
    && Distinct(storages)
    && (forall s :: s in storages ==> s in cache.created)
    && (forall s :: s in cache.created ==> s in storages)
  }

  method CloseStorage(cache: BodyCache, storage: Storage)
    requires cache.Valid() && storage in cache.created
    modifies cache, storage.Ref()
    ensures storage.Closed() && cache.Valid() && cache.created == old(cache.created)
    ensures cache.Open() == old(cache.Open()) - {storage}
    ensures cache.diskUsage <= old(cache.diskUsage) && (old(cache.diskUsage) == 0 ==> cache.diskUsage == 0)
  {
    hide Total, OnDiskOf, InMemoryOf;
    match storage {
      case InMemory(m) => m.Close();
      case OnDisk(d) => d.Close();
    }
    NoNegativeUsage(cache);
  }

  lemma NoNegativeUsage(cache: BodyCache)
    requires cache.Valid()
    ensures cache.diskUsage >= 0
  {
  }

  /** One operation; the storage that it makes comes last. */
  method Perform(cache: BodyCache, storages: seq<Storage>, op: Op) returns (after: seq<Storage>)
    requires cache.Valid() && Lists(cache, storages)
    modifies cache, cache.Refs()
    ensures cache.Valid() && Lists(cache, after) && fresh(cache.Refs() - old(cache.Refs()))
    ensures storages <= after && |after| <= |storages| + 1 && Adds(op, |storages|, |after|)
    ensures forall j :: 0 <= j < |storages| ==>
              (storages[j].Closed() <==> old(storages[j].Closed()) || op == Close(j))
    ensures forall j :: |storages| <= j < |after| ==> !after[j].Closed()
    ensures Honest(op) && old(UsageFits(cache)) ==> UsageFits(cache)
  {
    hide Total, OnDiskOf, InMemoryOf;
    after := storages;
    match op {
      case Create(data, disk) =>
        var storage := cache.CreateBodyStorage(data, disk);
        assert storage in cache.Open();
        after := storages + [storage];
      case CreateFromReader(stream, contentLength, maxBytes, disk) =>
        var r := cache.CreateBodyStorageFromReader(stream, contentLength, maxBytes, disk);
        if r.Ok? {
          assert r.value in cache.Open();
          after := storages + [r.value];
        }
      case Close(index) =>
        if index < |storages| {
          assert storages[index] in cache.created;
          CloseStorage(cache, storages[index]);
        }
    }
  }

  lemma StartOfRun(cache: BodyCache)
    requires cache.created == {} && cache.diskUsage == 0
    ensures Lists(cache, []) && Counts([], [0]) && UsageFits(cache)
  {
  }

  /** Any run of creations and (repeated) closes keeps the counters equal to what is open, leaves exactly
      the storages open that no operation closes, and keeps the disk usage within the limit if no body is
      longer than declared. */
  method Run(enabled: bool, thresholdMB: int, maxSizeMB: int, ops: seq<Op>)
      returns (cache: BodyCache, storages: seq<Storage>, ghost made: seq<nat>)
    ensures fresh(cache) && cache.Valid() && Lists(cache, storages)
    ensures cache.enabled == enabled && cache.thresholdMB == thresholdMB && cache.maxSizeMB == maxSizeMB
    ensures Counts(ops, made) && |made| == |ops| + 1 && made[|ops|] == |storages|
    ensures forall j :: 0 <= j < |storages| ==> (storages[j].Closed() <==> ClosedBy(ops, made, j))
    ensures (forall op :: op in ops ==> Honest(op)) ==> UsageFits(cache)
  {
    hide Total, OnDiskOf, InMemoryOf, Counts, ClosedBy, Lists, Adds, Honest, UsageFits;
    cache := new BodyCache(enabled, thresholdMB, maxSizeMB);
    storages, made := [], [0];
    StartOfRun(cache);
    for i := 0 to |ops|
      invariant fresh(cache) && fresh(cache.Refs()) && cache.Valid() && Lists(cache, storages)
      invariant cache.enabled == enabled && cache.thresholdMB == thresholdMB && cache.maxSizeMB == maxSizeMB
      invariant Counts(ops[..i], made) && |made| == i + 1 && made[i] == |storages|
      invariant forall j :: 0 <= j < |storages| ==> (storages[j].Closed() <==> ClosedBy(ops[..i], made, j))
      invariant (forall op :: op in ops ==> Honest(op)) ==> UsageFits(cache)
    {
      assert ops[i] in ops;
      NotYetClosed(ops[..i], made, |storages|, 0);
      storages := Perform(cache, storages, ops[i]);
      CountsSnoc(ops[..i], made, ops[i], |storages|);
      made := made + [|storages|];
      assert ops[..i + 1] == ops[..i] + [ops[i]];
    }
    assert ops[..|ops|] == ops;
  }

  /** The failing state is reached: a body fills the disk up to the declared length, and then a body as
      long as allowed is longer than declared. */
  method LongerThanDeclaredOvershoots(thresholdMB: int, maxSizeMB: int, contentLength: nat,
                                      filler: seq<byte>, body: seq<byte>)
      returns (cache: BodyCache)
    requires Streams(Limits(true, thresholdMB * MEGABYTE, maxSizeMB * MEGABYTE), 0, contentLength)
    requires |filler| == maxSizeMB * MEGABYTE - contentLength && |body| > contentLength
    ensures fresh(cache) && cache.Valid() && cache.diskUsage > cache.MaxBytes()
  {
    cache := new BodyCache(true, thresholdMB, maxSizeMB);
    var first := cache.CreateBodyStorageFromReader(Stream(filler, false), contentLength, |filler|, Works);
    var second := cache.CreateBodyStorageFromReader(Stream(body, false), contentLength, |body|, Works);
  }

  // ----- reading in pieces -----

  /** The chunks returned by successive reads of the given sizes. */
  function Chunks(data: seq<byte>, pos: nat, sizes: seq<nat>): seq<byte>
    decreases |sizes|
  {
    if sizes == [] then
      []
    else
      var first := Chunk(data, pos, sizes[0]);
      first + Chunks(data, pos + |first|, sizes[1..])
  }

  function Sum(sizes: seq<nat>): nat {
    if sizes == [] then 0 else sizes[0] + Sum(sizes[1..])
  }

  lemma ChunkJoin(data: seq<byte>, pos: nat, a: nat, b: nat)
    ensures var first := Chunk(data, pos, a);
            first + Chunk(data, pos + |first|, b) == Chunk(data, pos, a + b)
  {
    var mid, end := ReadEnd(|data|, pos, a), ReadEnd(|data|, pos, a + b);
    if pos < |data| {
      SliceJoin(data, pos, mid, end);
      if mid == |data| {
        assert data[mid..end] == [];
      }
    }
  }

  lemma SliceJoin(data: seq<byte>, lo: nat, mid: nat, hi: nat)
    requires lo <= mid <= hi <= |data|
    ensures data[lo..mid] + data[mid..hi] == data[lo..hi]
  {
  }

  /** Reading in pieces, whatever their sizes, returns what one read of their sum returns; so the
      whole body once the sizes add up to its length. */
  lemma {:induction false} ChunksAreOneRead(data: seq<byte>, pos: nat, sizes: seq<nat>)
    ensures Chunks(data, pos, sizes) == Chunk(data, pos, Sum(sizes))
    ensures pos == 0 && Sum(sizes) >= |data| ==> Chunks(data, pos, sizes) == data
    decreases |sizes|
  {
    hide Chunk;
    if sizes != [] {
      var first := Chunk(data, pos, sizes[0]);
      ChunksAreOneRead(data, pos + |first|, sizes[1..]);
      ChunkJoin(data, pos, sizes[0], Sum(sizes[1..]));
    }
    ChunkEnds(data, pos, Sum(sizes));
  }

  lemma ChunkEnds(data: seq<byte>, pos: nat, n: nat)
    ensures Chunk(data, pos, 0) == []
    ensures pos == 0 && n >= |data| ==> Chunk(data, pos, n) == data
  {
  }

  function Cursor(s: Storage): nat
    reads s.Ref()
  {
    match s
    case InMemory(m) => m.pos
    case OnDisk(d) => d.pos
  }

  /** Taking the whole body between the pieces does not disturb the reading, and always gives the body
      that is stored. */
  method ReadAndCopy(s: Storage, sizes: seq<nat>) returns (read: seq<byte>, copies: seq<seq<byte>>)
    requires !s.Closed() && |s.Contents()| == s.Size() && Cursor(s) == 0
    modifies s.Ref()
    ensures s.Contents() == old(s.Contents())
    ensures read == Chunk(s.Contents(), 0, Sum(sizes))
    ensures |copies| == |sizes| && forall c :: c in copies ==> c == s.Contents()
  {
    read, copies := [], [];
    ghost var body := s.Contents();
    for i := 0 to |sizes|
      invariant !s.Closed() && s.Contents() == body
      invariant read == Chunk(body, 0, Sum(sizes[..i])) && Cursor(s) == |read|
      invariant |copies| == i && forall c :: c in copies ==> c == body
    {
      var piece: Result<seq<byte>, Error>;
      var copy: Result<seq<byte>, Error>;
      match s {
        case InMemory(m) =>
          piece := m.Read(sizes[i]);
          copy := m.Bytes();
        case OnDisk(d) =>
          piece := d.Read(sizes[i]);
          copy := d.Bytes();
      }
      assert body[..|body|] == body;
      copies := copies + [copy.value];
      SumSnoc(sizes, i);
      ChunkJoin(body, 0, Sum(sizes[..i]), sizes[i]);
      if piece.Ok? {
        read := read + piece.value;
      } else {
        AtTheEnd(body, |read|, sizes[i]);
      }
    }
    assert sizes[..|sizes|] == sizes;
  }

  lemma AtTheEnd(data: seq<byte>, pos: nat, n: nat)
    requires pos >= |data|
    ensures Chunk(data, pos, n) == []
  {
  }

  lemma {:induction false} SumSnoc(sizes: seq<nat>, i: nat)
    requires i < |sizes|
    ensures Sum(sizes[..i + 1]) == Sum(sizes[..i]) + sizes[i]
  {
    if i > 0 {
      SumSnoc(sizes[1..], i - 1);
      assert sizes[..i + 1][1..] == sizes[1..][..i] && sizes[..i][1..] == sizes[1..][..i - 1];
    }
  }
}
