/** The image cache `ImageCache`: a singleton that keeps metadata about files
    copied into a cache directory, counts hits, and evicts the least recently
    used entries once the files take more room than allowed. The file system
    is a map from path to file size; clocks, hashing and file copying are
    given as arguments. */
module ImageCache {
  import opened Wrappers
  import ODict

  /** One metadata record: where the cached copy is, its size when it was
      cached, how often it was read and when last. */
  datatype Entry = Entry(filePath: string, sizeBytes: nat, accessCount: nat, lastAccessed: int)

  type Metadata = ODict.Dict<string, Entry>

  /** The files that exist, by path, with their sizes. */
  type Disk = map<string, nat>

  /** The `ValueError`s the cache raises. */
  datatype CacheError =
    | NonPositiveSize   // `max_size_in_MB` is zero or negative
    | EmptyKey          // `get` with an empty key
    | MissingLoad       // the loader returned a path that does not exist

  /** Bytes in a megabyte. */
  const MegaByte: nat := 1024 * 1024

  /** `int(max_size_bytes * 0.9)`: the size eviction brings the cache
      down to. */
  function Target(maxBytes: nat): (t: nat)
    ensures t <= maxBytes && 10 * t <= 9 * maxBytes < 10 * (t + 1)
  {
    maxBytes * 9 / 10
  }

  // ---------------------------------------------------------------------
  // Cache size

  /** What one entry adds to the cache size: the size of its file when the
      file exists, else the size recorded when it was cached. */
  function EntrySize(e: Entry, disk: Disk): nat
  {
    if e.filePath in disk then disk[e.filePath] else e.sizeBytes
  }

  /** `_get_cache_size`: the sum over all entries, in dictionary order. */
  function CacheSize(meta: Metadata, disk: Disk): nat
  {
    if meta == [] then 0
    else CacheSize(meta[..|meta| - 1], disk) + EntrySize(meta[|meta| - 1].1, disk)
  }

  /** The size is a sum: it adds up part by part. */
  lemma {:induction false} CacheSizeConcat(a: Metadata, b: Metadata, disk: Disk)
    ensures CacheSize(a + b, disk) == CacheSize(a, disk) + CacheSize(b, disk)
    decreases |b|
  {
    if b != [] {
      var n := |b| - 1;
      assert (a + b)[..|a + b| - 1] == a + b[..n];
      assert (a + b)[|a + b| - 1] == b[n];
      CacheSizeConcat(a, b[..n], disk);
    } else {
      assert a + b == a;
    }
  }

  /** Entries that take the same room, position by position, give the same
      size. */
  lemma {:induction false} CacheSizePointwise(a: Metadata, b: Metadata, disk: Disk)
    requires |a| == |b|
    requires forall i :: 0 <= i < |a| ==> EntrySize(a[i].1, disk) == EntrySize(b[i].1, disk)
    ensures CacheSize(a, disk) == CacheSize(b, disk)
    decreases |a|
  {
    if a != [] {
      var n := |a| - 1;
      CacheSizePointwise(a[..n], b[..n], disk);
    }
  }

  /** A cache hit rewrites only the access data of its entry, so the cache
      size stays the same. */
  lemma HitKeepsSize(meta: Metadata, disk: Disk, key: string, e: Entry, e': Entry)
    requires ODict.Valid(meta) && ODict.Get(meta, key) == Some(e)
    requires e'.filePath == e.filePath && e'.sizeBytes == e.sizeBytes
    ensures CacheSize(ODict.Set(meta, key, e'), disk) == CacheSize(meta, disk)
  {
    var r := ODict.Set(meta, key, e');
    ODict.SetValid(meta, key, e');
    forall i | 0 <= i < |meta| ensures EntrySize(r[i].1, disk) == EntrySize(meta[i].1, disk) {
      if meta[i].0 == key {
        ODict.GetAt(meta, i);
        ODict.GetAt(r, i);
      }
    }
    CacheSizePointwise(r, meta, disk);
  }

  // ---------------------------------------------------------------------
  // Validation

  /** The keys whose file does not exist, in dictionary order: the list
      `_validate_cache_files` collects. */
  function MissingKeys(meta: Metadata, disk: Disk): (r: seq<string>)
    ensures forall k :: k in r <==> exists i :: 0 <= i < |meta| && meta[i].0 == k && meta[i].1.filePath !in disk
  {
    if meta == [] then []
    else
      var n := |meta| - 1;
      assert forall i :: 0 <= i < n ==> meta[..n][i] == meta[i];
      MissingKeys(meta[..n], disk) + if meta[n].1.filePath in disk then [] else [meta[n].0]
  }

  /** The strings of a list, as a set. */
  function Members(s: seq<string>): set<string>
  {
    set k | k in s
  }

  /** The metadata left after dropping every key in `MissingKeys`. */
  function Validated(meta: Metadata, disk: Disk): Metadata
  {
    ODict.Without(meta, Members(MissingKeys(meta, disk)))
  }

  /** Validation removes exactly the entries whose file does not exist and
      leaves the others as they were. */
  lemma ValidatedSpec(meta: Metadata, disk: Disk, k: string)
    requires ODict.Valid(meta)
    ensures ODict.Valid(Validated(meta, disk))
    ensures ODict.HasKey(Validated(meta, disk), k) <==>
              ODict.HasKey(meta, k) && ODict.Get(meta, k).value.filePath in disk
    ensures ODict.HasKey(Validated(meta, disk), k) ==> ODict.Get(Validated(meta, disk), k) == ODict.Get(meta, k)
  {
    var ks := Members(MissingKeys(meta, disk));
    ODict.WithoutValid(meta, ks);
    ODict.WithoutHasKey(meta, ks, k);
    ODict.WithoutGet(meta, ks, k);
    if ODict.HasKey(meta, k) {
      var i := ODict.IndexOf(meta, k).value;
      ODict.GetAt(meta, i);
    }
  }

  /** After validation every entry's file exists. */
  lemma {:induction false} ValidatedExist(meta: Metadata, disk: Disk)
    ensures forall i :: 0 <= i < |Validated(meta, disk)| ==> Validated(meta, disk)[i].1.filePath in disk
  {
    var ks := Members(MissingKeys(meta, disk));
    ODict.WithoutEntries(meta, ks);
  }

  // ---------------------------------------------------------------------
  // Least-recently-used order

  /** Entries in non-decreasing `last_accessed` order. */
  predicate Ascending(s: Metadata)
  {
    forall i, j :: 0 <= i < j < |s| ==> s[i].1.lastAccessed <= s[j].1.lastAccessed
  }

  /** Puts `x` after every entry accessed no later than it, as a stable
      sort does. */
  function InsertByTime(s: Metadata, x: (string, Entry)): Metadata
  {
    if s == [] || s[|s| - 1].1.lastAccessed <= x.1.lastAccessed then s + [x]
    else InsertByTime(s[..|s| - 1], x) + [s[|s| - 1]]
  }

  /** `sorted(items, key=last_accessed)`. */
  function SortByTime(s: Metadata): Metadata
  {
    if s == [] then []
    else InsertByTime(SortByTime(s[..|s| - 1]), s[|s| - 1])
  }

  /** An ascending list stays ascending when an entry accessed no earlier
      than all of it is appended. */
  lemma AppendAscending(t: Metadata, y: (string, Entry))
    requires Ascending(t)
    requires forall i :: 0 <= i < |t| ==> t[i].1.lastAccessed <= y.1.lastAccessed
    ensures Ascending(t + [y])
  {
  }

  lemma {:induction false} InsertByTimeSpec(s: Metadata, x: (string, Entry))
    requires Ascending(s)
    ensures Ascending(InsertByTime(s, x))
    ensures multiset(InsertByTime(s, x)) == multiset(s) + multiset{x}
    decreases |s|
  {
    if s == [] || s[|s| - 1].1.lastAccessed <= x.1.lastAccessed {
      AppendAscending(s, x);
    } else {
      var n := |s| - 1;
      var init := s[..n];
      InsertByTimeSpec(init, x);
      var t := InsertByTime(init, x);
      assert s == init + [s[n]];
      forall i | 0 <= i < |t| ensures t[i].1.lastAccessed <= s[n].1.lastAccessed {
        assert t[i] in multiset(init) + multiset{x};
        if t[i] != x {
          assert t[i] in init;
        }
      }
      AppendAscending(t, s[n]);
    }
  }

  /** The sorted list is in `last_accessed` order and holds exactly the
      dictionary's entries. */
  lemma {:induction false} SortByTimeSpec(s: Metadata)
    ensures Ascending(SortByTime(s))
    ensures multiset(SortByTime(s)) == multiset(s)
    decreases |s|
  {
    if s != [] {
      var n := |s| - 1;
      SortByTimeSpec(s[..n]);
      InsertByTimeSpec(SortByTime(s[..n]), s[n]);
      assert s == s[..n] + [s[n]];
    }
  }

  // ---------------------------------------------------------------------
  // Eviction

  /** Where the eviction loop stopped: how many sorted entries it visited,
      the files left and the running size. */
  datatype Evicted = Evicted(count: nat, disk: Disk, size: int)

  /** The eviction loop from position `i` of the sorted entries: stop once
      the running size is at most `target`; otherwise delete the entry's
      file if it exists, lowering the running size by its recorded size. */
  function EvictFrom(sorted: Metadata, i: nat, disk: Disk, size: int, target: int): (r: Evicted)
    requires i <= |sorted|
    ensures i <= r.count <= |sorted|
    decreases |sorted| - i
  {
    if i == |sorted| || size <= target then Evicted(i, disk, size)
    else
      var e := sorted[i].1;
      if e.filePath in disk then EvictFrom(sorted, i + 1, disk - {e.filePath}, size - e.sizeBytes, target)
      else EvictFrom(sorted, i + 1, disk, size, target)
  }

  /** The file paths of some entries. */
  function Paths(s: Metadata): set<string>
  {
    set i | 0 <= i < |s| :: s[i].1.filePath
  }

  lemma PathsCons(s: Metadata)
    requires s != []
    ensures Paths(s) == {s[0].1.filePath} + Paths(s[1..])
  {
    forall p | p in Paths(s) ensures p in {s[0].1.filePath} + Paths(s[1..]) {
      var i :| 0 <= i < |s| && s[i].1.filePath == p;
      if i > 0 {
        assert s[1..][i - 1] == s[i];
      }
    }
    forall p | p in Paths(s[1..]) ensures p in Paths(s) {
      var i :| 0 <= i < |s[1..]| && s[1..][i].1.filePath == p;
      assert s[i + 1] == s[1..][i];
    }
  }

  /** The keys of some entries. */
  function KeySet(s: Metadata): set<string>
  {
    set i | 0 <= i < |s| :: s[i].0
  }

  lemma KeySetNext(s: Metadata, i: nat)
    requires i < |s|
    ensures KeySet(s[..i + 1]) == KeySet(s[..i]) + {s[i].0}
  {
    assert s[..i + 1] == s[..i] + [s[i]];
  }

  /** The loop stops at the target or at the end; it visits only while the
      size is above the target; it deletes the files of the visited entries;
      the size never grows and drops only for entries whose file existed. */
  lemma {:induction false} EvictFromSpec(sorted: Metadata, i: nat, disk: Disk, size: int, target: int)
    requires i <= |sorted|
    ensures var r := EvictFrom(sorted, i, disk, size, target);
      (r.count == |sorted| || r.size <= target)
      && (r.count > i ==> size > target)
      && r.disk == disk - Paths(sorted[i..r.count])
      && r.size <= size
      && ((forall j :: i <= j < r.count ==> sorted[j].1.filePath !in disk) ==> r.size == size)
    decreases |sorted| - i
  {
    var r := EvictFrom(sorted, i, disk, size, target);
    if !(i == |sorted| || size <= target) {
      var e := sorted[i].1;
      var d' := if e.filePath in disk then disk - {e.filePath} else disk;
      var s' := if e.filePath in disk then size - e.sizeBytes else size;
      assert r == EvictFrom(sorted, i + 1, d', s', target);
      EvictFromSpec(sorted, i + 1, d', s', target);
      PathsCons(sorted[i..r.count]);
      assert sorted[i..r.count][1..] == sorted[i + 1..r.count];
      if forall j :: i <= j < r.count ==> sorted[j].1.filePath !in disk {
        assert e.filePath !in disk;
        forall j | i + 1 <= j < r.count ensures sorted[j].1.filePath !in d' { }
      }
    } else {
      assert sorted[i..r.count] == [];
    }
  }

  /** `_evict_if_needed` on values: nothing happens while the cache size is
      within `maxBytes`; otherwise the sorted entries are visited from the
      least recently used, and every visited entry's metadata is deleted. */
  function EvictState(meta: Metadata, disk: Disk, maxBytes: nat): (Metadata, Disk)
  {
    var size := CacheSize(meta, disk);
    if size <= maxBytes then (meta, disk)
    else
      var sorted := SortByTime(meta);
      var r := EvictFrom(sorted, 0, disk, size, Target(maxBytes));
      (ODict.Without(meta, KeySet(sorted[..r.count])), r.disk)
  }

  /** Every evicted entry was accessed no later than every entry kept, and
      the kept entries are entries of the old metadata. */
  lemma EvictLeastRecent(meta: Metadata, disk: Disk, maxBytes: nat)
    requires CacheSize(meta, disk) > maxBytes
    ensures var sorted := SortByTime(meta);
      var r := EvictFrom(sorted, 0, disk, CacheSize(meta, disk), Target(maxBytes));
      var kept := EvictState(meta, disk, maxBytes).0;
      kept == ODict.Without(meta, KeySet(sorted[..r.count]))
      && (forall x :: x in kept ==> x in meta)
      && (forall j, x :: 0 <= j < r.count && x in kept ==> sorted[j].1.lastAccessed <= x.1.lastAccessed)
  {
    var sorted := SortByTime(meta);
    var r := EvictFrom(sorted, 0, disk, CacheSize(meta, disk), Target(maxBytes));
    var ks := KeySet(sorted[..r.count]);
    var kept := ODict.Without(meta, ks);
    SortByTimeSpec(meta);
    ODict.WithoutEntries(meta, ks);
    forall j, x | 0 <= j < r.count && x in kept ensures sorted[j].1.lastAccessed <= x.1.lastAccessed {
      var p :| 0 <= p < |kept| && kept[p] == x;
      assert x in meta && x.0 !in ks;
      assert x in multiset(sorted);
      NotEvictedLater(sorted, r.count, x, j);
    }
  }

  /** An entry of an ascending list whose key is not among the first `n`
      keys was accessed no earlier than each of the first `n`. */
  lemma NotEvictedLater(sorted: Metadata, n: nat, x: (string, Entry), j: nat)
    requires Ascending(sorted) && j < n <= |sorted| && x in sorted && x.0 !in KeySet(sorted[..n])
    ensures sorted[j].1.lastAccessed <= x.1.lastAccessed
  {
    var q :| 0 <= q < |sorted| && sorted[q] == x;
    assert forall i :: 0 <= i < n ==> sorted[..n][i] == sorted[i];
    assert forall i :: 0 <= i < n ==> sorted[i].0 in KeySet(sorted[..n]);
    assert n <= q;
  }

  /** Eviction ends at or below the target unless it ran out of entries,
      never deletes a file outside the visited entries, and changes nothing
      while the cache fits. */
  lemma EvictStateSpec(meta: Metadata, disk: Disk, maxBytes: nat)
    ensures CacheSize(meta, disk) <= maxBytes ==> EvictState(meta, disk, maxBytes) == (meta, disk)
    ensures CacheSize(meta, disk) > maxBytes ==>
      var sorted := SortByTime(meta);
      var r := EvictFrom(sorted, 0, disk, CacheSize(meta, disk), Target(maxBytes));
      (r.count == |meta| || r.size <= Target(maxBytes))
      && EvictState(meta, disk, maxBytes).1 == disk - Paths(sorted[..r.count])
  {
    SortByTimeSpec(meta);
    var sorted := SortByTime(meta);
    assert |sorted| == |multiset(sorted)| == |meta|;
    EvictFromSpec(sorted, 0, disk, CacheSize(meta, disk), Target(maxBytes));
    assert sorted[0..] == sorted;
  }

  /** A file larger than the whole cache, cached into an empty cache, is
      evicted by the same `get` that copied it: its entry and its file are
      both gone although `get` returns its path. */
  lemma OversizedEntryEvicted(key: string, cached: string, size: nat, now: int, disk: Disk, maxBytes: nat)
    requires size > maxBytes
    ensures var st := EvictState([(key, Entry(cached, size, 1, now))], disk[cached := size], maxBytes);
      st.0 == [] && cached !in st.1
  {
    var meta := [(key, Entry(cached, size, 1, now))];
    var d := disk[cached := size];
    assert meta[..0] == [];
    assert CacheSize(meta, d) == size;
    assert SortByTime(meta) == meta by {
      assert meta[..|meta| - 1] == [];
    }
    var r := EvictFrom(meta, 0, d, size, Target(maxBytes));
    assert r == EvictFrom(meta, 1, d - {cached}, 0, Target(maxBytes));
    assert r.count == 1 && r.disk == d - {cached};
    assert KeySet(meta[..1]) == {key} by {
      assert meta[..1] == meta;
    }
    assert ODict.Without(meta, {key}) == [] by {
      assert meta[1..] == [];
    }
  }

  // ---------------------------------------------------------------------
  // The cache object

  class Cache {
    var maxSizeInMB: nat
    var maxSizeBytes: nat
    var cachePath: string
    /** `_metadata`: key to entry, in insertion order. */
    var metadata: Metadata
    /** The files that exist. */
    var disk: Disk

    ghost predicate Valid()
      reads this
    {
      ODict.Valid(metadata) && maxSizeInMB > 0 && maxSizeBytes == maxSizeInMB * MegaByte
    }

    /** `_initialize`: the cache directory is the given path when it is
        non-empty, else `tmpDir`; the metadata is the saved one (`None` when
        the file is absent or unreadable), validated against the disk. */
    constructor (path: Option<string>, maxMB: nat, tmpDir: string, saved: Option<Metadata>, disk0: Disk)
      requires maxMB > 0
      requires saved.Some? ==> ODict.Valid(saved.value)
      ensures Valid()
      ensures maxSizeInMB == maxMB && maxSizeBytes == maxMB * MegaByte
      ensures cachePath == if path.Some? && path.value != "" then path.value else tmpDir
      ensures metadata == Validated(saved.GetOr([]), disk0) && disk == disk0
    {
      maxSizeInMB := maxMB;
      maxSizeBytes := maxMB * MegaByte;
      cachePath := if path.Some? && path.value != "" then path.value else tmpDir;
      metadata := saved.GetOr([]);
      disk := disk0;
      new;
      ValidateCacheFiles();
      ValidatedSpec(saved.GetOr([]), disk0, "");
    }

    /** `_validate_cache_files`: collects the keys whose file is missing,
        then deletes them. */
    method ValidateCacheFiles()
      modifies this
      ensures metadata == Validated(old(metadata), disk)
      ensures disk == old(disk) && cachePath == old(cachePath)
      ensures maxSizeInMB == old(maxSizeInMB) && maxSizeBytes == old(maxSizeBytes)
    {
      var m0 := metadata;
      var invalid: seq<string> := [];
      for i := 0 to |m0|
        invariant invalid == MissingKeys(m0[..i], disk)
        invariant metadata == m0 && disk == old(disk) && cachePath == old(cachePath)
        invariant maxSizeInMB == old(maxSizeInMB) && maxSizeBytes == old(maxSizeBytes)
      {
        assert m0[..i + 1][..i] == m0[..i];
        if m0[i].1.filePath !in disk {
          invalid := invalid + [m0[i].0];
        }
      }
      assert m0[..|m0|] == m0;
      ODict.WithoutNone(m0, {});
      assert Members(invalid[..0]) == {};
      for j := 0 to |invalid|
        invariant metadata == ODict.Without(m0, Members(invalid[..j]))
        invariant disk == old(disk) && cachePath == old(cachePath)
        invariant maxSizeInMB == old(maxSizeInMB) && maxSizeBytes == old(maxSizeBytes)
      {
        ODict.PopOne(m0, Members(invalid[..j]), invalid[j]);
        assert (Members(invalid[..j + 1])) == (Members(invalid[..j])) + {invalid[j]} by {
          assert invalid[..j + 1] == invalid[..j] + [invalid[j]];
        }
        metadata := ODict.Remove(metadata, invalid[j]);
      }
      assert invalid[..|invalid|] == invalid;
    }

    /** `_get_cache_size`. */
    method GetCacheSize() returns (total: nat)
      ensures total == CacheSize(metadata, disk)
    {
      total := 0;
      for i := 0 to |metadata|
        invariant total == CacheSize(metadata[..i], disk)
      {
        assert metadata[..i + 1][..i] == metadata[..i];
        total := total + EntrySize(metadata[i].1, disk);
      }
      assert metadata[..|metadata|] == metadata;
    }

    /** `_evict_if_needed`. */
    method EvictIfNeeded()
      requires Valid()
      modifies this
      ensures Valid()
      ensures (metadata, disk) == EvictState(old(metadata), old(disk), maxSizeBytes)
      ensures maxSizeInMB == old(maxSizeInMB) && maxSizeBytes == old(maxSizeBytes) && cachePath == old(cachePath)
    {
      var current: int := GetCacheSize();
      if current > maxSizeBytes {
        var target := Target(maxSizeBytes);
        var m0, d0, c0 := metadata, disk, current;
        var sorted := SortByTime(metadata);
        ODict.WithoutNone(m0, {});
        assert KeySet(sorted[..0]) == {};
        var i := 0;
        while i < |sorted| && current > target
          invariant 0 <= i <= |sorted|
          invariant EvictFrom(sorted, i, disk, current, target) == EvictFrom(sorted, 0, d0, c0, target)
          invariant metadata == ODict.Without(m0, KeySet(sorted[..i]))
          invariant maxSizeInMB == old(maxSizeInMB) && maxSizeBytes == old(maxSizeBytes) && cachePath == old(cachePath)
          decreases |sorted| - i
        {
          var key, e := sorted[i].0, sorted[i].1;
          if e.filePath in disk {
            disk := disk - {e.filePath};
            current := current - e.sizeBytes;
          }
          ODict.PopOne(m0, KeySet(sorted[..i]), key);
          KeySetNext(sorted, i);
          metadata := ODict.Remove(metadata, key);
          i := i + 1;
        }
        assert EvictFrom(sorted, i, disk, current, target) == Evicted(i, disk, current);
        ODict.WithoutValid(m0, KeySet(sorted[..i]));
      }
    }

    /** `get`: a hit whose file exists counts the access and returns the
        cached path; a hit whose file is gone drops the entry and continues as
        a miss. A miss asks the loader (its answer is `source`), copies that
        file to `cachePath + "/" + fileName` (the name is the key's hash with
        the source's suffix), records it with one access at time `now`, and
        evicts if needed. */
    method Get(key: string, source: string, fileName: string, now: int) returns (r: Result<string, CacheError>)
      requires Valid()
      modifies this
      ensures Valid()
      ensures maxSizeInMB == old(maxSizeInMB) && maxSizeBytes == old(maxSizeBytes) && cachePath == old(cachePath)
      ensures key == "" ==> r == Err(EmptyKey) && metadata == old(metadata) && disk == old(disk)
      ensures key != "" && ODict.Get(old(metadata), key).Some? && ODict.Get(old(metadata), key).value.filePath in old(disk) ==>
                var e := ODict.Get(old(metadata), key).value;
                r == Ok(e.filePath) && disk == old(disk)
                && metadata == ODict.Set(old(metadata), key, e.(accessCount := e.accessCount + 1, lastAccessed := now))
      ensures key != "" && !(ODict.Get(old(metadata), key).Some? && ODict.Get(old(metadata), key).value.filePath in old(disk)) ==>
                var dropped := ODict.Remove(old(metadata), key);
                var cached := cachePath + "/" + fileName;
                if source !in old(disk) then
                  r == Err(MissingLoad) && metadata == dropped && disk == old(disk)
                else
                  r == Ok(cached)
                  && (metadata, disk) == EvictState(dropped + [(key, Entry(cached, old(disk)[source], 1, now))],
                                                    old(disk)[cached := old(disk)[source]], maxSizeBytes)
    {
      if key == "" {
        return Err(EmptyKey);
      }
      var found := ODict.Get(metadata, key);
      if found.Some? {
        var e := found.value;
        if e.filePath in disk {
          var touched := e.(accessCount := e.accessCount + 1, lastAccessed := now);
          ODict.SetValid(metadata, key, touched);
          metadata := ODict.Set(metadata, key, touched);
          return Ok(e.filePath);
        }
      }
      ODict.RemoveGet(metadata, key, key);
      metadata := ODict.Remove(metadata, key);
      if source !in disk {
        return Err(MissingLoad);
      }
      var cached := cachePath + "/" + fileName;
      var size := disk[source];
      var entry := Entry(cached, size, 1, now);
      disk := disk[cached := size];
      assert !ODict.HasKey(metadata, key);
      ODict.SetValid(metadata, key, entry);
      assert ODict.Set(metadata, key, entry) == metadata + [(key, entry)];
      metadata := ODict.Set(metadata, key, entry);
      EvictIfNeeded();
      return Ok(cached);
    }
  }

  /** A path the cache does not own disappears from the disk, as when a user
      deletes a cached file. */
  method FileVanished(c: Cache, path: string)
    modifies c
    ensures c.disk == old(c.disk) - {path}
    ensures c.metadata == old(c.metadata) && c.cachePath == old(c.cachePath)
    ensures c.maxSizeInMB == old(c.maxSizeInMB) && c.maxSizeBytes == old(c.maxSizeBytes)
  {
    c.disk := c.disk - {path};
  }

  /** The class attribute `_instance`. */
  class Registry {
    var instance: Cache?

    constructor ()
      ensures instance == null
    {
      instance := null;
    }

    /** `get_instance`: rejects a non-positive size on every call; the first
        accepted call creates the cache, and later calls return that same
        cache whatever their arguments. */
    method GetInstance(path: Option<string>, maxMB: int, tmpDir: string, saved: Option<Metadata>, disk0: Disk)
      returns (r: Result<Cache, CacheError>)
      requires saved.Some? ==> ODict.Valid(saved.value)
      modifies this
      ensures maxMB <= 0 ==> r == Err(NonPositiveSize) && instance == old(instance)
      ensures maxMB > 0 && old(instance) != null ==> r.Ok? && r.value == old(instance) && instance == old(instance)
      ensures maxMB > 0 && old(instance) == null ==>
                instance != null && fresh(instance) && r.Ok? && r.value == instance && instance.Valid()
                && instance.maxSizeBytes == maxMB * MegaByte
                && instance.metadata == Validated(saved.GetOr([]), disk0) && instance.disk == disk0
    {
      if maxMB <= 0 {
        return Err(NonPositiveSize);
      }
      if instance == null {
        var c := new Cache(path, maxMB, tmpDir, saved, disk0);
        instance := c;
      }
      return Ok(instance);
    }
  }
}
