/** The log of a key directory: records, their bytes, and what replaying them means. */
module KeyDirLogs {
  import opened Base
  import opened Bytes

  const MAGIC: nat := 0x4452_494B
  const HEADER: nat := 4
  const TOMBSTONE: nat := U32_MAX
  const SENTINEL: nat := U32_MAX - 1

  /** A live entry or a tombstone; keys and values stand for their encodings. */
  datatype Entry = Pair(key: bytes, value: bytes) | Tomb(key: bytes)

  /** The record's size fits its 32-bit field, which keeps value sizes below both markers. */
  predicate Fits(r: Entry) {
    8 + |r.key| + (if r.Pair? then |r.value| else 0) <= U32_MAX
  }

  type Record = r: Entry | Fits(r) witness Tomb([])

  /** Two length fields, the key and, in a live entry, the value. */
  function Size(r: Record): nat {
    8 + |r.key| + (if r.Pair? then |r.value| else 0)
  }

  function Encoded(r: Record): (b: bytes)
    ensures |b| == Size(r)
  {
    if r.Pair? then LE32(|r.value|) + r.value + LE32(|r.key|) + r.key
    else LE32(TOMBSTONE) + LE32(|r.key|) + r.key
  }

  function Image(log: seq<Record>): bytes {
    if log == [] then [] else Image(log[..|log| - 1]) + Encoded(log[|log| - 1])
  }

  /** Where the record after `log` goes. */
  function End(log: seq<Record>): nat {
    if log == [] then HEADER else End(log[..|log| - 1]) + Size(log[|log| - 1])
  }

  datatype Meta = Meta(offset: nat, size: nat)

  type Index = map<bytes, Meta>

  /** Index, dead bytes and tail position after replaying records. */
  datatype Replayed = Replayed(index: Index, dead: nat, end: nat)

  function Freed(index: Index, key: bytes): nat {
    if key in index then index[key].size else 0
  }

  function Step(s: Replayed, r: Record): Replayed {
    var size := Size(r);
    if r.Pair? then Replayed(s.index[r.key := Meta(s.end, size)], s.dead + Freed(s.index, r.key), s.end + size)
    else Replayed(s.index - {r.key}, s.dead + Freed(s.index, r.key) + size, s.end + size)
  }

  function Replay(log: seq<Record>): Replayed {
    if log == [] then Replayed(map[], 0, HEADER) else Step(Replay(log[..|log| - 1]), log[|log| - 1])
  }

  /** The map the log describes: the last word on each key. */
  function Content(log: seq<Record>): map<bytes, bytes> {
    if log == [] then map[]
    else
      var r := log[|log| - 1];
      var before := Content(log[..|log| - 1]);
      if r.Pair? then before[r.key := r.value] else before - {r.key}
  }

  // ---- appending ---------------------------------------------------------------------

  lemma Appended(log: seq<Record>, r: Record)
    ensures Image(log + [r]) == Image(log) + Encoded(r) && End(log + [r]) == End(log) + Size(r)
    ensures Replay(log + [r]) == Step(Replay(log), r)
    ensures Content(log + [r]) == if r.Pair? then Content(log)[r.key := r.value] else Content(log) - {r.key}
  {
    assert (log + [r])[..|log|] == log;
  }

  lemma {:induction false} ImageEnds(log: seq<Record>)
    ensures HEADER + |Image(log)| == End(log)
  {
    if log != [] {
      ImageEnds(log[..|log| - 1]);
    }
  }

  lemma {:induction false} ReplayEnds(log: seq<Record>)
    ensures Replay(log).end == End(log) && Replay(log).index.Keys == Content(log).Keys
  {
    if log != [] {
      ReplayEnds(log[..|log| - 1]);
    }
  }

  // ---- conservation: header, live and dead bytes make up the file ----------------------

  /** The bytes of the records the index points at. */
  ghost function Live(index: Index): nat {
    if index == map[] then 0
    else
      var k :| k in index;
      index[k].size + Live(index - {k})
  }

  lemma {:induction false} LiveRemove(index: Index, key: bytes)
    requires key in index
    ensures Live(index) == index[key].size + Live(index - {key})
    decreases |index|
  {
    var k :| k in index && Live(index) == index[k].size + Live(index - {k});
    if k != key {
      LiveRemove(index - {k}, key);
      LiveRemove(index - {key}, k);
      assert index - {k} - {key} == index - {key} - {k};
    }
  }

  lemma LivePut(index: Index, key: bytes, meta: Meta)
    ensures Live(index[key := meta]) + Freed(index, key) == Live(index) + meta.size
  {
    LiveRemove(index[key := meta], key);
    assert index[key := meta] - {key} == index - {key};
    if key in index {
      LiveRemove(index, key);
    } else {
      assert index - {key} == index;
    }
  }

  lemma LiveDrop(index: Index, key: bytes)
    ensures Live(index - {key}) + Freed(index, key) == Live(index)
  {
    if key in index {
      LiveRemove(index, key);
    } else {
      assert index - {key} == index;
    }
  }

  lemma {:induction false} Conserved(log: seq<Record>)
    ensures HEADER + Live(Replay(log).index) + Replay(log).dead == Replay(log).end
  {
    if log != [] {
      var s, r := Replay(log[..|log| - 1]), log[|log| - 1];
      Conserved(log[..|log| - 1]);
      LivePut(s.index, r.key, Meta(s.end, Size(r)));
      LiveDrop(s.index, r.key);
    }
  }

  // ---- where records are -----------------------------------------------------------------

  /** The index points at the record, at position `i`, that last set the key. */
  lemma {:induction false} Located(log: seq<Record>, key: bytes) returns (i: nat)
    requires key in Replay(log).index
    ensures i < |log| && key in Content(log) && log[i] == Pair(key, Content(log)[key])
    ensures Replay(log).index[key] == Meta(End(log[..i]), Size(log[i]))
  {
    var front, r := log[..|log| - 1], log[|log| - 1];
    ReplayEnds(log);
    ReplayEnds(front);
    if r.Pair? && r.key == key {
      i := |log| - 1;
    } else {
      i := Located(front, key);
      assert front[..i] == log[..i];
    }
  }

  lemma EndNext(log: seq<Record>, j: nat)
    requires j < |log|
    ensures End(log[..j + 1]) == End(log[..j]) + Size(log[j])
  {
    assert log[..j + 1][..j] == log[..j];
  }

  lemma {:induction false} EndMonotone(log: seq<Record>, i: nat, j: nat)
    requires i < j <= |log|
    ensures End(log[..i]) + Size(log[i]) <= End(log[..j])
    decreases j
  {
    EndNext(log, j - 1);
    if i < j - 1 {
      EndMonotone(log, i, j - 1);
    }
  }

  /** The bytes of each record stand at its place. */
  lemma {:induction false} RecordAt(m: bytes, log: seq<Record>, i: nat)
    requires At(m, HEADER, Image(log)) && i < |log|
    ensures At(m, End(log[..i]), Encoded(log[i])) && End(log[..i]) + Size(log[i]) <= End(log)
    ensures At(m, HEADER, Image(log[..i]))
    decreases |log|
  {
    var front := log[..|log| - 1];
    AtSplit(m, HEADER, Image(front), Encoded(log[|log| - 1]));
    ImageEnds(front);
    if i < |log| - 1 {
      RecordAt(m, front, i);
      assert front[..i] == log[..i];
    }
  }

  /** Different keys occupy disjoint stretches of the file. */
  lemma Apart(log: seq<Record>, a: bytes, b: bytes)
    requires a in Replay(log).index && b in Replay(log).index && a != b
    ensures var x, y := Replay(log).index[a], Replay(log).index[b];
            x.offset + x.size <= y.offset || y.offset + y.size <= x.offset
  {
    var i := Located(log, a);
    var j := Located(log, b);
    if i < j {
      EndMonotone(log, i, j);
    } else {
      EndMonotone(log, j, i);
    }
  }

  // ---- reading a record back ----------------------------------------------------------------

  lemma ReadPut(m: bytes, c: nat, key: bytes, value: bytes)
    requires Fits(Pair(key, value)) && At(m, c, Encoded(Pair(key, value)))
    ensures c + 8 + |value| + |key| <= |m|
    ensures Word(m[c..c + 4]) == |value| < SENTINEL && m[c + 4..c + 4 + |value|] == value
    ensures Word(m[c + 4 + |value|..c + 8 + |value|]) == |key| && m[c + 8 + |value|..c + 8 + |value| + |key|] == key
  {
    AtSplit(m, c, LE32(|value|) + value + LE32(|key|), key);
    AtSplit(m, c, LE32(|value|) + value, LE32(|key|));
    AtSplit(m, c, LE32(|value|), value);
    WordAt(m, c, |value|);
    WordAt(m, c + 4 + |value|, |key|);
  }

  lemma ReadTomb(m: bytes, c: nat, key: bytes)
    requires Fits(Tomb(key)) && At(m, c, Encoded(Tomb(key)))
    ensures c + 8 + |key| <= |m|
    ensures Word(m[c..c + 4]) == TOMBSTONE
    ensures Word(m[c + 4..c + 8]) == |key| && m[c + 8..c + 8 + |key|] == key
  {
    AtSplit(m, c, LE32(TOMBSTONE) + LE32(|key|), key);
    AtSplit(m, c, LE32(TOMBSTONE), LE32(|key|));
    WordAt(m, c, TOMBSTONE);
    WordAt(m, c + 4, |key|);
  }
}
