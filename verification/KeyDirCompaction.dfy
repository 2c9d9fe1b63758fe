/** Compaction in place: live records slide towards the header in the order they stand. */
module KeyDirCompactions {
  import opened Base
  import opened Bytes
  import opened KeyDirLogs
  import opened KeyDirFiles

  /** Live records as they stand in the file before compaction. */
  ghost predicate Standing(index: Index, content: map<bytes, bytes>, limit: nat) {
    && index.Keys == content.Keys
    && (forall k :: k in index ==> Fits(Pair(k, content[k])) && index[k].size == 8 + |k| + |content[k]|)
    && (forall k :: k in index ==> HEADER <= index[k].offset && index[k].offset + index[k].size <= limit)
    && (forall a, b :: a in index && b in index && index[a].offset < index[b].offset ==>
          index[a].offset + index[a].size <= index[b].offset)
    && (forall a, b :: a in index && b in index && index[a].offset == index[b].offset ==> a == b)
  }

  function RecordOf(content: map<bytes, bytes>, k: bytes): Record
    requires k in content && Fits(Pair(k, content[k]))
  {
    Pair(k, content[k])
  }

  lemma LogStanding(log: seq<Record>)
    ensures Standing(Replay(log).index, Content(log), End(log))
  {
    var index := Replay(log).index;
    ReplayEnds(log);
    forall k | k in index
      ensures Fits(Pair(k, Content(log)[k])) && index[k].size == 8 + |k| + |Content(log)[k]|
      ensures HEADER <= index[k].offset && index[k].offset + index[k].size <= End(log)
    {
      var i := Located(log, k);
      EndMonotone(log, i, |log|);
      assert log[..|log|] == log;
    }
    forall a, b | a in index && b in index && a != b
      ensures index[a].offset != index[b].offset
      ensures index[a].offset < index[b].offset ==> index[a].offset + index[a].size <= index[b].offset
    {
      Apart(log, a, b);
    }
  }

  lemma LogLive(m: bytes, log: seq<Record>, k: bytes)
    requires At(m, HEADER, Image(log)) && k in Replay(log).index
    ensures k in Content(log) && Fits(Pair(k, Content(log)[k]))
    ensures At(m, Replay(log).index[k].offset, Encoded(RecordOf(Content(log), k)))
  {
    var i := Located(log, k);
    RecordAt(m, log, i);
  }

  // ---- the order of the sweep --------------------------------------------------------

  /** The live keys by offset. */
  ghost predicate ByOffset(index: Index, keys: seq<bytes>) {
    && (forall k :: k in keys <==> k in index)
    && (forall i, j :: 0 <= i < j < |keys| ==> keys[i] in index && keys[j] in index && index[keys[i]].offset < index[keys[j]].offset)
  }

  lemma {:induction false} LeastOffset(index: Index, rest: set<bytes>)
    requires rest != {} && rest <= index.Keys
    ensures exists k :: k in rest && forall x :: x in rest ==> index[k].offset <= index[x].offset
  {
    var k :| k in rest;
    if rest == {k} {
      assert forall x :: x in rest ==> x == k;
    } else {
      LeastOffset(index, rest - {k});
      var y :| y in rest - {k} && forall x :: x in rest - {k} ==> index[y].offset <= index[x].offset;
      var least := if index[k].offset <= index[y].offset then k else y;
      assert forall x :: x in rest ==> x == k || x in rest - {k};
      assert forall x :: x in rest ==> index[least].offset <= index[x].offset;
    }
  }

  /** The keys not in `rest`, by offset, all before those in `rest`. */
  ghost predicate Taken(index: Index, rest: set<bytes>, keys: seq<bytes>) {
    && rest <= index.Keys
    && (forall k :: k in keys <==> k in index && k !in rest)
    && (forall i, x :: 0 <= i < |keys| && x in rest ==> keys[i] in index && index[keys[i]].offset < index[x].offset)
    && (forall i, j :: 0 <= i < j < |keys| ==> keys[i] in index && keys[j] in index && index[keys[i]].offset < index[keys[j]].offset)
  }

  lemma TakenNext(index: Index, rest: set<bytes>, keys: seq<bytes>, k: bytes)
    requires Taken(index, rest, keys) && k in rest
    requires forall x :: x in rest && x != k ==> index[k].offset < index[x].offset
    ensures Taken(index, rest - {k}, keys + [k])
  {
    var keys' := keys + [k];
    forall x ensures x in keys' <==> x in index && x !in rest - {k} {
      assert x in keys' <==> x in keys || x == k;
    }
    forall i, x | 0 <= i < |keys'| && x in rest - {k} ensures keys'[i] in index && index[keys'[i]].offset < index[x].offset {
    }
  }

  method SortedKeys(index: Index) returns (keys: seq<bytes>)
    requires forall a, b :: a in index && b in index && index[a].offset == index[b].offset ==> a == b
    ensures ByOffset(index, keys)
  {
    keys := [];
    var rest := index.Keys;
    while rest != {}
      invariant Taken(index, rest, keys)
      decreases rest
    {
      LeastOffset(index, rest);
      var k :| k in rest && forall x :: x in rest ==> index[k].offset <= index[x].offset;
      TakenNext(index, rest, keys, k);
      keys, rest := keys + [k], rest - {k};
    }
  }

  // ---- the sweep -----------------------------------------------------------------------

  /** The record of a key stands at its old place, at or past the cursor. */
  ghost predicate Waiting(m: bytes, index: Index, content: map<bytes, bytes>, cursor: nat, k: bytes) {
    && k in index && k in content && Fits(Pair(k, content[k]))
    && cursor <= index[k].offset && At(m, index[k].offset, Encoded(RecordOf(content, k)))
  }

  /** The first `i` records have moved; the others have not been touched. */
  ghost predicate Slid(m: bytes, index: Index, content: map<bytes, bytes>, keys: seq<bytes>, i: nat, log: seq<Record>, limit: nat) {
    && i <= |keys| && limit + 4 <= |m| && End(log) <= limit
    && At(m, 0, LE32(MAGIC)) && At(m, HEADER, Image(log))
    && (forall j :: i <= j < |keys| ==> Waiting(m, index, content, End(log), keys[j]))
  }

  /** The records moved so far are the whole of the new log, and none of them is dead. */
  ghost predicate Relogged(content: map<bytes, bytes>, keys: seq<bytes>, i: nat, log: seq<Record>) {
    && i <= |keys| && Replay(log).dead == 0
    && (forall k :: k in Content(log) <==> k in keys[..i])
    && (forall k :: k in Content(log) ==> k in content && Content(log)[k] == content[k])
  }

  /** Moved entries point at their new place, the others at the old. */
  ghost predicate Repointed(index0: Index, index: Index, log: seq<Record>) {
    && index.Keys == index0.Keys && Replay(log).index.Keys <= index0.Keys
    && (forall k :: k in index ==> index[k] == if k in Replay(log).index then Replay(log).index[k] else index0[k])
  }

  lemma StillWaiting(m: bytes, index: Index, content: map<bytes, bytes>, limit: nat, cursor: nat, k: bytes, x: bytes)
    requires Standing(index, content, limit)
    requires Waiting(m, index, content, cursor, k) && Waiting(m, index, content, cursor, x)
    requires index[k].offset < index[x].offset && cursor + Size(RecordOf(content, k)) <= |m|
    ensures Waiting(Write(m, cursor, Encoded(RecordOf(content, k))), index, content, cursor + index[k].size, x)
  {
    WriteKeeps(m, cursor, Encoded(RecordOf(content, k)), index[x].offset, Encoded(RecordOf(content, x)));
  }

  /** Copying a record down to the cursor overwrites nothing that has yet to move. */
  lemma SlidNext(m: bytes, index: Index, content: map<bytes, bytes>, keys: seq<bytes>, i: nat, log: seq<Record>, limit: nat)
    requires Standing(index, content, limit) && ByOffset(index, keys) && i < |keys|
    requires Slid(m, index, content, keys, i, log, limit)
    ensures Waiting(m, index, content, End(log), keys[i])
    ensures Slid(Write(m, End(log), Encoded(RecordOf(content, keys[i]))), index, content, keys, i + 1,
                 log + [RecordOf(content, keys[i])], limit)
  {
    var k, c := keys[i], End(log);
    assert Waiting(m, index, content, c, k);
    var r := RecordOf(content, k);
    var m' := Write(m, c, Encoded(r));
    Appended(log, r);
    WriteAt(m, c, Encoded(r));
    WriteKeeps(m, c, Encoded(r), 0, LE32(MAGIC));
    ImageEnds(log);
    WriteKeeps(m, c, Encoded(r), HEADER, Image(log));
    AtSplit(m', HEADER, Image(log), Encoded(r));
    forall j | i + 1 <= j < |keys| ensures Waiting(m', index, content, c + index[k].size, keys[j]) {
      StillWaiting(m, index, content, limit, c, k, keys[j]);
    }
  }

  lemma NotYet(index: Index, content: map<bytes, bytes>, keys: seq<bytes>, i: nat, log: seq<Record>)
    requires ByOffset(index, keys) && i < |keys| && Relogged(content, keys, i, log)
    ensures keys[i] !in Replay(log).index
  {
    ReplayEnds(log);
  }

  lemma TakeIn(keys: seq<bytes>, i: nat, x: bytes)
    requires i < |keys|
    ensures x in keys[..i + 1] <==> x in keys[..i] || x == keys[i]
  {
    assert keys[..i + 1] == keys[..i] + [keys[i]];
  }

  lemma ReloggedNext(content: map<bytes, bytes>, keys: seq<bytes>, i: nat, log: seq<Record>)
    requires i < |keys| && Relogged(content, keys, i, log) && keys[i] !in Replay(log).index
    requires keys[i] in content && Fits(Pair(keys[i], content[keys[i]]))
    ensures Relogged(content, keys, i + 1, log + [RecordOf(content, keys[i])])
  {
    Appended(log, RecordOf(content, keys[i]));
    var after := Content(log + [RecordOf(content, keys[i])]);
    forall k ensures k in after <==> k in keys[..i + 1] {
      TakeIn(keys, i, k);
    }
  }

  lemma RepointedNext(index0: Index, index: Index, log: seq<Record>, r: Record)
    requires Repointed(index0, index, log) && r.Pair? && r.key in index0
    ensures Repointed(index0, index[r.key := Meta(End(log), Size(r))], log + [r])
  {
    Appended(log, r);
    ReplayEnds(log);
  }

  method MoveDown(m: bytes, src: nat, size: nat, cursor: nat, ghost b: bytes) returns (r: bytes)
    requires cursor <= src && At(m, src, b) && size == |b|
    ensures r == Write(m, cursor, b)
  {
    r := m;
    if src != cursor {
      r := Write(m, cursor, m[src..src + size]);
    } else {
      assert m == m[..src] + m[src..src + size] + m[src + size..];
    }
  }

  /** All of the above. */
  ghost predicate Sweeping(m: bytes, index0: Index, index: Index, content: map<bytes, bytes>, keys: seq<bytes>, i: nat,
                           log: seq<Record>, limit: nat) {
    Slid(m, index0, content, keys, i, log, limit) && Relogged(content, keys, i, log) && Repointed(index0, index, log)
  }

  /** Where the next record is, and what moving it will achieve. */
  lemma SweepNext(m: bytes, index0: Index, index: Index, content: map<bytes, bytes>, keys: seq<bytes>, i: nat,
                  log: seq<Record>, limit: nat)
    requires Standing(index0, content, limit) && ByOffset(index0, keys) && i < |keys|
    requires Sweeping(m, index0, index, content, keys, i, log, limit)
    ensures Waiting(m, index0, content, End(log), keys[i]) && keys[i] in index && index[keys[i]] == index0[keys[i]]
    ensures var r := RecordOf(content, keys[i]);
            && index[keys[i]].size == Size(r) && End(log + [r]) == End(log) + Size(r)
            && Sweeping(Write(m, End(log), Encoded(r)), index0, index[keys[i] := Meta(End(log), Size(r))], content, keys, i + 1,
                        log + [r], limit)
  {
    SlidNext(m, index0, content, keys, i, log, limit);
    NotYet(index0, content, keys, i, log);
    ReloggedNext(content, keys, i, log);
    RepointedNext(index0, index, log, RecordOf(content, keys[i]));
    Appended(log, RecordOf(content, keys[i]));
  }

  /** Moves every live record, in the order they stand. */
  method Sweep(m: bytes, index0: Index, keys: seq<bytes>, ghost content: map<bytes, bytes>, ghost limit: nat)
    returns (m': bytes, index: Index, cursor: nat, ghost log: seq<Record>)
    requires Standing(index0, content, limit) && ByOffset(index0, keys)
    requires Sweeping(m, index0, index0, content, keys, 0, [], limit)
    ensures Sweeping(m', index0, index, content, keys, |keys|, log, limit) && cursor == End(log)
  {
    m', index, cursor, log := m, index0, HEADER, [];
    for i := 0 to |keys|
      invariant Sweeping(m', index0, index, content, keys, i, log, limit) && cursor == End(log)
    {
      SweepNext(m', index0, index, content, keys, i, log, limit);
      var meta := index[keys[i]];
      m' := MoveDown(m', meta.offset, meta.size, cursor, Encoded(RecordOf(content, keys[i])));
      index := index[keys[i] := Meta(cursor, meta.size)];
      cursor := cursor + meta.size;
      log := log + [RecordOf(content, keys[i])];
    }
  }

  lemma SweepStart(m: bytes, log: seq<Record>, keys: seq<bytes>)
    requires Stands(m, log) && ByOffset(Replay(log).index, keys)
    ensures Sweeping(m, Replay(log).index, Replay(log).index, Content(log), keys, 0, [], End(log))
  {
    LogStanding(log);
    forall j | 0 <= j < |keys| ensures Waiting(m, Replay(log).index, Content(log), HEADER, keys[j]) {
      assert keys[j] in keys;
      LogLive(m, log, keys[j]);
    }
    AtEmpty(m, HEADER);
  }

  /** Once everything has moved, the new log describes the same map and the index is its replay. */
  lemma SweepEnd(index0: Index, index: Index, content: map<bytes, bytes>, keys: seq<bytes>, log: seq<Record>)
    requires index0.Keys == content.Keys && forall k :: k in keys <==> k in index0
    requires Relogged(content, keys, |keys|, log) && Repointed(index0, index, log)
    ensures Content(log) == content && Replay(log) == Replayed(index, 0, End(log))
  {
    assert keys[..|keys|] == keys;
    assert Content(log) == content;
    ReplayEnds(log);
    forall k | k in index ensures k in Replay(log).index && index[k] == Replay(log).index[k] {
      assert k in Content(log);
    }
    assert Replay(log).index == index;
  }

  /** Drops everything dead: the file then holds one record per live key and nothing else. */
  method Compact(m: bytes, index0: Index, initialCapacity: nat, ghost log0: seq<Record>)
    returns (m': bytes, index: Index, end: nat, ghost log: seq<Record>)
    requires Stands(m, log0) && index0 == Replay(log0).index
    ensures Stands(m', log) && Content(log) == Content(log0) && Replay(log) == Replayed(index, 0, end)
  {
    LogStanding(log0);
    var keys := SortedKeys(index0);
    SweepStart(m, log0, keys);
    m', index, end, log := Sweep(m, index0, keys, Content(log0), End(log0));
    SweepEnd(index0, index, Content(log0), keys, log);
    m' := Seal(m', end, initialCapacity, log);
  }

  /** Writes the terminator and gives back what the file no longer needs. */
  method Seal(m: bytes, cursor: nat, initialCapacity: nat, ghost log: seq<Record>) returns (r: bytes)
    requires At(m, 0, LE32(MAGIC)) && At(m, HEADER, Image(log)) && cursor == End(log) && cursor + 4 <= |m|
    ensures Stands(r, log)
  {
    r := Write(m, cursor, LE32(SENTINEL));
    WriteAt(m, cursor, LE32(SENTINEL));
    WriteKeeps(m, cursor, LE32(SENTINEL), 0, LE32(MAGIC));
    ImageEnds(log);
    WriteKeeps(m, cursor, LE32(SENTINEL), HEADER, Image(log));
    var capacity := if cursor + 4 < initialCapacity then initialCapacity else cursor + 4;
    ResizeKeeps(r, capacity, 0, LE32(MAGIC));
    ResizeKeeps(r, capacity, HEADER, Image(log));
    ResizeKeeps(r, capacity, cursor, LE32(SENTINEL));
    r := Resize(r, capacity);
  }
}
