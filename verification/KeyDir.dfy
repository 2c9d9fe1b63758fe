/** The key directory: an append-only file and the index over it. */
module KeyDirs {
  import opened Base
  import opened Bytes
  import opened KeyDirLogs
  import opened KeyDirFiles
  import C = KeyDirCompactions

  datatype Error = NotAKeyDir | Corrupt

  class KeyDir {
    const initialCapacity: nat
    var mmap: bytes
    var index: Index
    var dataSize: nat
    var deadBytes: nat
    ghost var log: seq<Record>

    /** The file holds the log, and index and counters are what scanning it would give. */
    ghost predicate Valid()
      reads this
    {
      Stands(mmap, log) && Replayed(index, deadBytes, dataSize) == Replay(log) && initialCapacity >= HEADER + 4
    }

    ghost function Model(): map<bytes, bytes>
      reads this
    {
      Content(log)
    }

    constructor Create(initialCapacity: nat)
      requires initialCapacity >= HEADER + 4
      ensures Valid() && Model() == map[] && this.initialCapacity == initialCapacity
    {
      this.initialCapacity := initialCapacity;
      var m := Blank(Zeros(initialCapacity));
      mmap, index, dataSize, deadBytes, log := m, map[], HEADER, 0, [];
    }

    constructor Load(initialCapacity: nat, file: bytes, i: Index, dead: nat, end: nat, ghost log: seq<Record>)
      ensures mmap == file && index == i && dataSize == end && deadBytes == dead && this.log == log && this.initialCapacity == initialCapacity
    {
      this.initialCapacity := initialCapacity;
      mmap, index, dataSize, deadBytes, this.log := file, i, end, dead, log;
    }

    /**
     Opens any file. One without the magic number is refused, one whose records lead out of it is corrupt. Otherwise
     the directory is that of the records in the file, up to the terminator or the end.
     */
    static method Open(initialCapacity: nat, file: bytes) returns (r: Result<KeyDir, Error>, ghost log: seq<Record>)
      requires initialCapacity >= HEADER + 4 && |file| >= 4
      ensures Word(file[..4]) != MAGIC <==> r == Err(NotAKeyDir)
      ensures Word(file[..4]) == MAGIC ==> At(file, HEADER, Image(log)) && !Look(file, End(log)).Found?
      ensures r == Err(Corrupt) <==> Word(file[..4]) == MAGIC && Look(file, End(log)).Broken?
      ensures r.Ok? <==> Word(file[..4]) == MAGIC && Look(file, End(log)).Finished?
      ensures r.Ok? ==> fresh(r.value) && r.value.mmap == file && r.value.log == log && r.value.initialCapacity == initialCapacity
      ensures r.Ok? ==> Replayed(r.value.index, r.value.deadBytes, r.value.dataSize) == Replay(log)
      ensures r.Ok? && Stands(file, log) ==> r.value.Valid()
    {
      if Word(file[..4]) != MAGIC {
        return Err(NotAKeyDir), [];
      }
      var ok, i, d, e;
      ok, i, d, e, log := RebuildIndex(file);
      if !ok {
        return Err(Corrupt), log;
      }
      var kd := new KeyDir.Load(initialCapacity, file, i, d, e, log);
      return Ok(kd), log;
    }

    method Become(m: bytes, i: Index, end: nat, dead: nat, ghost l: seq<Record>)
      modifies this
      ensures mmap == m && index == i && dataSize == end && deadBytes == dead && log == l
    {
      mmap, index, dataSize, deadBytes, log := m, i, end, dead, l;
    }

    /** Appends a record for a key and points the index at it. */
    method Append(key: bytes, value: bytes)
      requires Valid() && Fits(Pair(key, value))
      modifies this
      ensures Valid() && log == old(log) + [Pair(key, value)] && Model() == old(Model())[key := value]
    {
      ReplayEnds(log);
      Appended(log, Pair(key, value));
      var m, meta, end := WriteEntry(mmap, dataSize, key, value, log);
      var dead := deadBytes + if key in index then index[key].size else 0;
      Become(m, index[key := meta], end, dead, log + [Pair(key, value)]);
    }

    /** Appends a tombstone for a live key and forgets it. */
    method Bury(key: bytes)
      requires Valid() && key in index
      modifies this
      ensures Valid() && log == old(log) + [Tomb(key)] && Model() == old(Model()) - {key}
    {
      ReplayEnds(log);
      C.LogLive(mmap, log, key);
      ghost var value := Content(log)[key];
      ghost var i := Located(log, key);
      Appended(log, Tomb(key));
      var doomed := index[key];
      var m, end, size := WriteTombstone(mmap, dataSize, doomed, log, key, value);
      Become(m, index - {key}, end, deadBytes + doomed.size + size, log + [Tomb(key)]);
    }

    method Compact()
      requires Valid()
      modifies this
      ensures Valid() && Model() == old(Model()) && deadBytes == 0
    {
      var m, i, end;
      ghost var l;
      m, i, end, l := C.Compact(mmap, index, initialCapacity, log);
      Become(m, i, end, 0, l);
    }

    /** Compacts or not: the threshold decides which, and neither changes what the directory holds. */
    method MaybeCompact()
      requires Valid()
      modifies this
      ensures Valid() && Model() == old(Model())
    {
      var due: bool := *;
      if due {
        Compact();
      }
    }

    method Get(key: bytes) returns (r: Option<bytes>)
      requires Valid()
      ensures r == Lookup(Model(), key)
    {
      ReplayEnds(log);
      if key !in index {
        return None;
      }
      C.LogLive(mmap, log, key);
      var value := ValueBytes(mmap, index[key], key, Content(log)[key]);
      return Some(value);
    }

    method Size() returns (n: nat)
      requires Valid()
      ensures n == |Model()|
    {
      ReplayEnds(log);
      n := |index|;
      assert |index| == |index.Keys| && |Content(log)| == |Content(log).Keys|;
    }

    method Put(key: bytes, value: bytes)
      requires Valid() && Fits(Pair(key, value))
      modifies this
      ensures Valid() && Model() == old(Model())[key := value]
    {
      Append(key, value);
      MaybeCompact();
    }

    method Delete(key: bytes) returns (removed: bool)
      requires Valid()
      modifies this
      ensures Valid() && Model() == old(Model()) - {key}
      ensures removed <==> key in old(Model())
      ensures !removed ==> unchanged(this)
    {
      ReplayEnds(log);
      removed := key in index;
      if removed {
        Bury(key);
        MaybeCompact();
      } else {
        assert Model() - {key} == Model();
      }
    }

    method PutIfAbsent(key: bytes, value: bytes) returns (inserted: bool)
      requires Valid() && Fits(Pair(key, value))
      modifies this
      ensures Valid() && inserted == (key !in old(Model()))
      ensures Model() == if inserted then old(Model())[key := value] else old(Model())
      ensures !inserted ==> unchanged(this)
    {
      ReplayEnds(log);
      inserted := key !in index;
      if inserted {
        Append(key, value);
        MaybeCompact();
      }
    }

    method Replace(key: bytes, value: bytes) returns (previous: Option<bytes>)
      requires Valid() && Fits(Pair(key, value))
      modifies this
      ensures Valid() && previous == Lookup(old(Model()), key) && Model() == old(Model())[key := value]
    {
      previous := Get(key);
      Append(key, value);
      MaybeCompact();
    }

    /** Read, change, and write back or delete: at most one record is written. */
    method Update(key: bytes, f: Option<bytes> -> Option<bytes>)
      requires Valid() && var v := f(Lookup(Model(), key)); v.Some? ==> Fits(Pair(key, v.value))
      modifies this
      ensures Valid()
      ensures var v := f(Lookup(old(Model()), key));
              Model() == if v.Some? then old(Model())[key := v.value] else old(Model()) - {key}
      ensures Lookup(old(Model()), key).None? && f(None).None? ==> unchanged(this)
    {
      ReplayEnds(log);
      var current := Get(key);
      var next := f(current);
      if next.Some? {
        Append(key, next.value);
        MaybeCompact();
      } else if current.Some? {
        Bury(key);
        MaybeCompact();
      } else {
        assert Model() - {key} == Model();
      }
    }

    method Clear()
      requires Valid()
      modifies this
      ensures Valid() && Model() == map[] && deadBytes == 0 && |mmap| == old(|mmap|)
    {
      var m := Blank(mmap);
      Become(m, map[], HEADER, 0, []);
    }

    /** Scanning the file again gives exactly the index and counters of the live instance. */
    method Reopen() returns (kd: KeyDir)
      requires Valid()
      ensures fresh(kd) && kd.Valid() && kd.mmap == mmap && kd.log == log
      ensures kd.index == index && kd.dataSize == dataSize && kd.deadBytes == deadBytes
    {
      var r;
      ghost var found;
      WordAt(mmap, 0, MAGIC);
      assert mmap[0..4] == mmap[..4];
      StandsFinished(mmap, log);
      r, found := Open(initialCapacity, mmap);
      OneLog(mmap, log, found);
      kd := r.value;
    }

    /** Header, live records and dead bytes make up the data. */
    lemma Accounts()
      requires Valid()
      ensures HEADER + Live(index) + deadBytes == dataSize && dataSize + 4 <= |mmap|
    {
      Conserved(log);
      ReplayEnds(log);
    }
  }

  /** Writes the header and the terminator of an empty log. */
  method Blank(m: bytes) returns (r: bytes)
    requires |m| >= HEADER + 4
    ensures |r| == |m| && Stands(r, [])
  {
    r := Write(m, 0, LE32(MAGIC));
    WriteAt(m, 0, LE32(MAGIC));
    WriteAt(r, HEADER, LE32(SENTINEL));
    WriteKeeps(r, HEADER, LE32(SENTINEL), 0, LE32(MAGIC));
    r := Write(r, HEADER, LE32(SENTINEL));
    AtEmpty(r, HEADER);
  }
}
