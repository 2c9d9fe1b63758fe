/** Writing records to the file of a key directory, and scanning it. */
module KeyDirFiles {
  import opened Base
  import opened Bytes
  import opened KeyDirLogs

  /** The file holds the header, the records of the log and the terminator. */
  predicate Stands(m: bytes, log: seq<Record>) {
    && At(m, 0, LE32(MAGIC)) && At(m, HEADER, Image(log)) && At(m, End(log), LE32(SENTINEL))
  }

  function Zeros(n: nat): (b: bytes)
    ensures |b| == n
  {
    seq(n, _ => 0)
  }

  /** Sets the length of the file; new bytes read as zero. */
  function Resize(m: bytes, n: nat): (r: bytes)
    ensures |r| == n
  {
    if n <= |m| then m[..n] else m + Zeros(n - |m|)
  }

  lemma ResizeKeeps(m: bytes, n: nat, c: nat, b: bytes)
    requires At(m, c, b) && c + |b| <= n
    ensures At(Resize(m, n), c, b)
  {
    if n <= |m| {
      PrefixAt(m, n, c, b);
    } else {
      ExtendAt(m, Zeros(n - |m|), c, b);
    }
  }

  /** Makes room for `desired` bytes, at least doubling the file if it must grow. */
  method Reserve(m: bytes, desired: nat, ghost log: seq<Record>) returns (r: bytes)
    requires Stands(m, log)
    ensures Stands(r, log) && |r| >= desired
  {
    r := m;
    if desired > |m| {
      var capacity := if |m| * 2 < desired then desired else |m| * 2;
      ResizeKeeps(m, capacity, 0, LE32(MAGIC));
      ImageEnds(log);
      ResizeKeeps(m, capacity, HEADER, Image(log));
      ResizeKeeps(m, capacity, End(log), LE32(SENTINEL));
      r := Resize(m, capacity);
    }
  }

  /** The bytes `done` have been written after the log. */
  predicate Tail(m: bytes, log: seq<Record>, done: bytes) {
    At(m, 0, LE32(MAGIC)) && At(m, HEADER, Image(log)) && At(m, End(log), done)
  }

  lemma TailStart(m: bytes, log: seq<Record>)
    requires Stands(m, log)
    ensures Tail(m, log, [])
  {
    AtEmpty(m, End(log));
  }

  /** A whole record and the terminator have been written. */
  lemma TailWritten(m: bytes, log: seq<Record>, r: Record)
    requires Tail(m, log, Encoded(r) + LE32(SENTINEL))
    ensures Stands(m, log + [r])
  {
    Appended(log, r);
    AtSplit(m, End(log), Encoded(r), LE32(SENTINEL));
    ImageEnds(log);
    AtSplit(m, HEADER, Image(log), Encoded(r));
  }

  method WriteNext(m: bytes, c: nat, b: bytes, ghost done: bytes, ghost log: seq<Record>) returns (r: bytes)
    requires Tail(m, log, done) && c == End(log) + |done| && c + |b| <= |m|
    ensures |r| == |m| && Tail(r, log, done + b)
  {
    r := Write(m, c, b);
    WriteAt(m, c, b);
    WriteKeeps(m, c, b, 0, LE32(MAGIC));
    ImageEnds(log);
    WriteKeeps(m, c, b, HEADER, Image(log));
    WriteKeeps(m, c, b, End(log), done);
    AtSplit(r, End(log), done, b);
  }

  method WriteEntry(m: bytes, dataSize: nat, key: bytes, value: bytes, ghost log: seq<Record>)
    returns (r: bytes, meta: Meta, end: nat)
    requires Stands(m, log) && dataSize == End(log) && Fits(Pair(key, value))
    ensures Stands(r, log + [Pair(key, value)])
    ensures meta == Meta(dataSize, Size(Pair(key, value))) && end == dataSize + meta.size
  {
    var total := 8 + |value| + |key|;
    end := dataSize + total;
    r := Reserve(m, end + 4, log);
    TailStart(r, log);
    r := WriteNext(r, dataSize, LE32(|value|), [], log);
    r := WriteNext(r, dataSize + 4, value, [] + LE32(|value|), log);
    r := WriteNext(r, dataSize + 4 + |value|, LE32(|key|), [] + LE32(|value|) + value, log);
    r := WriteNext(r, dataSize + 8 + |value|, key, [] + LE32(|value|) + value + LE32(|key|), log);
    assert [] + LE32(|value|) + value + LE32(|key|) + key == Encoded(Pair(key, value));
    r := WriteNext(r, end, LE32(SENTINEL), Encoded(Pair(key, value)), log);
    TailWritten(r, log, Pair(key, value));
    meta := Meta(dataSize, total);
  }

  /** Appends a tombstone for the key whose encoding is given. */
  method WriteDeath(m: bytes, dataSize: nat, key: bytes, ghost log: seq<Record>) returns (r: bytes)
    requires Stands(m, log) && dataSize == End(log) && Fits(Tomb(key))
    ensures Stands(r, log + [Tomb(key)])
  {
    var end := dataSize + 8 + |key|;
    r := Reserve(m, end + 4, log);
    TailStart(r, log);
    r := WriteNext(r, dataSize, LE32(TOMBSTONE), [], log);
    r := WriteNext(r, dataSize + 4, LE32(|key|), [] + LE32(TOMBSTONE), log);
    r := WriteNext(r, dataSize + 8, key, [] + LE32(TOMBSTONE) + LE32(|key|), log);
    assert [] + LE32(TOMBSTONE) + LE32(|key|) + key == Encoded(Tomb(key));
    r := WriteNext(r, end, LE32(SENTINEL), Encoded(Tomb(key)), log);
    TailWritten(r, log, Tomb(key));
  }

  /** The encoded key inside a live record, located from the sizes on disk. */
  method KeyBytes(m: bytes, meta: Meta, ghost key: bytes, ghost value: bytes) returns (k: bytes)
    requires Fits(Pair(key, value)) && At(m, meta.offset, Encoded(Pair(key, value))) && meta.size == 8 + |key| + |value|
    ensures k == key
  {
    ReadPut(m, meta.offset, key, value);
    var valueSize := Word(m[meta.offset..meta.offset + 4]);
    var keySize := meta.size - 8 - valueSize;
    var start := meta.offset + 8 + valueSize;
    k := m[start..start + keySize];
  }

  /** The encoded value inside a live record. */
  method ValueBytes(m: bytes, meta: Meta, ghost key: bytes, ghost value: bytes) returns (v: bytes)
    requires Fits(Pair(key, value)) && At(m, meta.offset, Encoded(Pair(key, value)))
    ensures v == value
  {
    ReadPut(m, meta.offset, key, value);
    var size := Word(m[meta.offset..meta.offset + 4]);
    v := m[meta.offset + 4..meta.offset + 4 + size];
  }

  /** Appends a tombstone, copying the encoded key out of the doomed record. */
  method WriteTombstone(m: bytes, dataSize: nat, doomed: Meta, ghost log: seq<Record>, ghost key: bytes, ghost value: bytes)
    returns (r: bytes, end: nat, size: nat)
    requires Stands(m, log) && dataSize == End(log) && Fits(Pair(key, value))
    requires At(m, doomed.offset, Encoded(Pair(key, value))) && doomed.size == 8 + |key| + |value|
    ensures Stands(r, log + [Tomb(key)])
    ensures size == Size(Tomb(key)) && end == dataSize + size
  {
    var k := KeyBytes(m, doomed, key, value);
    r := WriteDeath(m, dataSize, k, log);
    size := 8 + |k|;
    end := dataSize + size;
  }

  // ---- replay -------------------------------------------------------------------------

  /** What the scan meets at a position: a whole record, the end of the log, or sizes that lead out of the file. */
  datatype Sight = Found(record: Record) | Finished | Broken

  function Look(m: bytes, c: nat): Sight {
    if c + 4 > |m| || Word(m[c..c + 4]) == SENTINEL then Finished
    else
      var valueSize := Word(m[c..c + 4]);
      var isTombstone := valueSize == TOMBSTONE;
      var sizeAt := if isTombstone then c + 4 else c + 4 + valueSize;
      if sizeAt + 4 > |m| then Broken
      else
        var end := sizeAt + 4 + Word(m[sizeAt..sizeAt + 4]);
        if end > |m| || end - c > U32_MAX then Broken
        else if isTombstone then Found(Tomb(m[sizeAt + 4..end]))
        else Found(Pair(m[sizeAt + 4..end], m[c + 4..sizeAt]))
  }

  lemma BytesOf(b: bytes)
    requires |b| == 4
    ensures Word(b) <= U32_MAX && LE32(Word(b)) == b
  {
    var n := Word(b);
    var x: int, y: int, z: int, w: int := b[0], b[1], b[2], b[3];
    assert n == x + 256 * (y + 256 * (z + 256 * w));
    assert n % 256 == x && n / 256 == y + 256 * (z + 256 * w);
    assert n / 65536 == n / 256 / 256 == z + 256 * w;
    assert n / 16777216 == n / 65536 / 256 == w;
  }

  /** A record that is met stands there. */
  lemma FoundAt(m: bytes, c: nat)
    requires Look(m, c).Found?
    ensures At(m, c, Encoded(Look(m, c).record)) && c + Size(Look(m, c).record) <= |m|
  {
    var valueSize := Word(m[c..c + 4]);
    var r := Look(m, c).record;
    BytesOf(m[c..c + 4]);
    if r.Tomb? {
      BytesOf(m[c + 4..c + 8]);
      TombAt(m, c, r.key);
    } else {
      BytesOf(m[c + 4 + valueSize..c + 8 + valueSize]);
      PairAt(m, c, r.key, r.value);
    }
  }

  lemma TombAt(m: bytes, c: nat, key: bytes)
    requires Fits(Tomb(key)) && At(m, c, LE32(TOMBSTONE)) && At(m, c + 4, LE32(|key|)) && At(m, c + 8, key)
    ensures At(m, c, Encoded(Tomb(key)))
  {
    AtSplit(m, c, LE32(TOMBSTONE), LE32(|key|));
    AtSplit(m, c, LE32(TOMBSTONE) + LE32(|key|), key);
  }

  lemma PairAt(m: bytes, c: nat, key: bytes, value: bytes)
    requires Fits(Pair(key, value)) && At(m, c, LE32(|value|)) && At(m, c + 4, value)
    requires At(m, c + 4 + |value|, LE32(|key|)) && At(m, c + 8 + |value|, key)
    ensures At(m, c, Encoded(Pair(key, value)))
  {
    AtSplit(m, c, LE32(|value|), value);
    AtSplit(m, c, LE32(|value|) + value, LE32(|key|));
    AtSplit(m, c, LE32(|value|) + value + LE32(|key|), key);
  }

  /** A record that stands there is met. */
  lemma AtFound(m: bytes, c: nat, r: Record)
    requires At(m, c, Encoded(r))
    ensures Look(m, c) == Found(r)
  {
    if r.Pair? {
      ReadPut(m, c, r.key, r.value);
    } else {
      ReadTomb(m, c, r.key);
    }
  }

  lemma OneRecord(m: bytes, c: nat, r: Record, s: Record)
    requires At(m, c, Encoded(r)) && At(m, c, Encoded(s))
    ensures r == s
  {
    AtFound(m, c, r);
    AtFound(m, c, s);
  }

  lemma OneMore(a: seq<Record>, b: seq<Record>, i: nat)
    requires i < |a| && i < |b| && a[..i] == b[..i] && a[i] == b[i]
    ensures a[..i + 1] == b[..i + 1]
  {
    assert a[..i + 1] == a[..i] + [a[i]] && b[..i + 1] == b[..i] + [b[i]];
  }

  lemma {:induction false} SamePrefix(m: bytes, a: seq<Record>, b: seq<Record>, i: nat)
    requires At(m, HEADER, Image(a)) && At(m, HEADER, Image(b)) && i <= |a| && i <= |b|
    ensures a[..i] == b[..i]
  {
    if i > 0 {
      SamePrefix(m, a, b, i - 1);
      RecordAt(m, a, i - 1);
      RecordAt(m, b, i - 1);
      OneRecord(m, End(a[..i - 1]), a[i - 1], b[i - 1]);
      OneMore(a, b, i - 1);
    }
  }

  lemma NotLonger(m: bytes, a: seq<Record>, b: seq<Record>)
    requires At(m, HEADER, Image(a)) && At(m, HEADER, Image(b)) && !Look(m, End(a)).Found?
    ensures |b| <= |a|
  {
    if |a| < |b| {
      SamePrefix(m, a, b, |a|);
      RecordAt(m, b, |a|);
      assert a[..|a|] == a;
      AtFound(m, End(a), b[|a|]);
      assert false;
    }
  }

  /** A file holds one log. */
  lemma OneLog(m: bytes, a: seq<Record>, b: seq<Record>)
    requires At(m, HEADER, Image(a)) && At(m, HEADER, Image(b)) && !Look(m, End(a)).Found? && !Look(m, End(b)).Found?
    ensures a == b
  {
    NotLonger(m, a, b);
    NotLonger(m, b, a);
    SamePrefix(m, a, b, |a|);
    assert a[..|a|] == a && b[..|b|] == b;
  }

  /** One record read off the file and applied to the index. */
  method ReadRecord(m: bytes, cursor: nat, index: Index, dead: nat)
    returns (index': Index, dead': nat, end: nat)
    requires Look(m, cursor).Found?
    ensures Replayed(index', dead', end) == Step(Replayed(index, dead, cursor), Look(m, cursor).record)
  {
    var valueSize := Word(m[cursor..cursor + 4]);
    var isTombstone := valueSize == TOMBSTONE;
    var sizeAt := if isTombstone then cursor + 4 else cursor + 4 + valueSize;
    var keySize := Word(m[sizeAt..sizeAt + 4]);
    end := sizeAt + 4 + keySize;
    var key := m[sizeAt + 4..end];
    dead' := dead;
    if key in index {
      dead' := dead' + index[key].size;
    }
    if isTombstone {
      index' := index - {key};
      dead' := dead' + 8 + keySize;
    } else {
      index' := index[key := Meta(cursor, 8 + valueSize + keySize)];
    }
  }

  lemma LogLonger(m: bytes, log: seq<Record>, r: Record)
    requires At(m, HEADER, Image(log)) && At(m, End(log), Encoded(r))
    ensures At(m, HEADER, Image(log + [r]))
  {
    Appended(log, r);
    ImageEnds(log);
    AtSplit(m, HEADER, Image(log), Encoded(r));
  }

  /**
   Scans any file from the header on. The records it meets are the log of the file, and it gives what replaying
   them means, unless the log runs into sizes that lead out of the file.
   */
  method RebuildIndex(m: bytes) returns (ok: bool, index: Index, dead: nat, end: nat, ghost log: seq<Record>)
    requires |m| >= HEADER
    ensures At(m, HEADER, Image(log)) && ok == Look(m, End(log)).Finished? && !Look(m, End(log)).Found?
    ensures Replayed(index, dead, end) == Replay(log)
  {
    index, dead, end, log := map[], 0, HEADER, [];
    AtEmpty(m, HEADER);
    while Look(m, end).Found?
      invariant At(m, HEADER, Image(log)) && Replayed(index, dead, end) == Replay(log) && end == End(log) <= |m|
      decreases |m| - end
    {
      ghost var r := Look(m, end).record;
      FoundAt(m, end);
      LogLonger(m, log, r);
      Appended(log, r);
      index, dead, end := ReadRecord(m, end, index, dead);
      log := log + [r];
    }
    ok := Look(m, end).Finished?;
  }

  /** The terminator ends the log. */
  lemma StandsFinished(m: bytes, log: seq<Record>)
    requires Stands(m, log)
    ensures Look(m, End(log)).Finished?
  {
    WordAt(m, End(log), SENTINEL);
  }
}
