/** A table: a bounded write cache over a materialized state, with a change log and a recovery cursor. */
module Tables {
  import opened Base
  import opened Bytes
  import opened Bindings
  import opened TableHistories
  import opened MergedRows
  import F = TopicFiles
  import L = Topics
  import S = SkipLists

  /** What applying an operation to a cell gives. */
  datatype Verdict<+V> = Refused | Unchanged | Became(cell: V)

  datatype Outcome<+V> = Ignored | Applied(change: Change<V>)

  datatype Error = ApplyFailed | CacheFull

  // ---- the log ------------------------------------------------------------------------------

  /** The consumer whose committed cursor marks where recovery starts. */
  const RECOVERY: string := "__zendb_table_recovery"

  /** How changes are written as records. */
  datatype Codec<!V> = Codec(encode: Change<V> -> bytes, decode: bytes -> Change<V>)

  /** Decoding undoes encoding. */
  ghost predicate Lossless<V(!new)>(codec: Codec<V>) {
    forall c :: codec.decode(codec.encode(c)) == c
  }

  /** The changes in a stretch of the log. */
  function Decoded<V>(codec: Codec<V>, records: seq<F.Payload>): seq<Change<V>> {
    seq(|records|, i requires 0 <= i < |records| => codec.decode(records[i]))
  }

  lemma DecodedMore<V(!new)>(codec: Codec<V>, records: seq<F.Payload>, c: Change<V>, p: F.Payload)
    requires Lossless(codec) && p == codec.encode(c)
    ensures Decoded(codec, records + [p]) == Decoded(codec, records) + [c]
  {
  }

  // ---- rows ------------------------------------------------------------------------------

  /** Reading the cache first and the state second gives `model`; `novel` counts rows only in the cache. */
  ghost predicate Rows<V>(state: map<int, V>, cache: map<int, V>, model: map<int, V>, novel: nat) {
    && model == state + cache && |model| == |state| + novel
  }

  lemma PutSize<V>(m: map<int, V>, k: int, v: V)
    ensures |m[k := v]| == if k in m then |m| else |m| + 1
  {
    var n := m[k := v];
    if k in m {
      assert n.Keys == m.Keys;
    } else {
      assert n.Keys == m.Keys + {k};
    }
  }

  lemma MergePut<V>(state: map<int, V>, cache: map<int, V>, k: int, v: V)
    ensures state + cache[k := v] == (state + cache)[k := v]
  {
  }

  lemma RowsPut<V>(state: map<int, V>, cache: map<int, V>, model: map<int, V>, novel: nat, k: int, v: V)
    requires Rows(state, cache, model, novel)
    ensures Rows(state, cache[k := v], model[k := v], if k in model then novel else novel + 1)
  {
    MergePut(state, cache, k, v);
    PutSize(model, k, v);
  }

  lemma RowsDrained<V>(state: map<int, V>, cache: map<int, V>, model: map<int, V>, novel: nat)
    requires Rows(state, cache, model, novel)
    ensures Rows(model, map[], model, 0)
  {
    assert model + map[] == model;
  }

  /** Every cached row was changed since the recovery cursor. */
  ghost predicate Fresh<V(!new)>(cache: map<int, V>, history: seq<Change<V>>, cursor: nat)
    requires cursor <= |history|
  {
    forall k :: k in cache ==> Touches(history[cursor..], k)
  }

  lemma FreshMore<V(!new)>(cache: map<int, V>, history: seq<Change<V>>, cursor: nat, c: Change<V>, v: V)
    requires cursor <= |history| && Fresh(cache, history, cursor)
    ensures Fresh(cache[c.key := v], history + [c], cursor)
  {
    assert (history + [c])[cursor..] == history[cursor..] + [c];
    forall k | k in cache[c.key := v] ensures Touches((history + [c])[cursor..], k) {
      TouchesMore(history[cursor..], c, k);
    }
  }

  /**
   The log, its cursors and the rows on both sides of it fit together: `at` is how far the table has
   taken the log in, `cursor` where recovery would start.
   */
  ghost predicate Kept<V(!new)>(cache: map<int, V>, model: map<int, V>, history: seq<Change<V>>, cursor: nat, at: nat) {
    cursor <= at <= |history| && Final(history[..at]) == model && Fresh(cache, history, cursor)
  }

  lemma KeptMore<V(!new)>(cache: map<int, V>, model: map<int, V>, history: seq<Change<V>>, cursor: nat, c: Change<V>, v: V)
    requires Kept(cache, model, history, cursor, |history|) && c.current == Some(v)
    ensures Kept(cache[c.key := v], model[c.key := v], history + [c], cursor, |history| + 1)
  {
    assert history[..|history|] == history && (history + [c])[..|history| + 1] == history + [c];
    ReplayedMore(map[], history, c);
    FreshMore(cache, history, cursor, c, v);
  }

  /** A change in the log that the table has not taken in. */
  lemma KeptBehind<V(!new)>(model: map<int, V>, history: seq<Change<V>>, cursor: nat, at: nat, c: Change<V>)
    requires Kept(map[], model, history, cursor, at)
    ensures Kept(map[], model, history + [c], cursor, at)
  {
    assert (history + [c])[..at] == history[..at];
  }

  /** A state after rows have been written to it one by one. */
  function PutRows<V>(state: map<int, V>, rows: seq<Item<V>>): map<int, V> {
    if rows == [] then state else PutRows(state, rows[..|rows| - 1])[rows[|rows| - 1].key := rows[|rows| - 1].value]
  }

  lemma {:induction false} PutRowsLookup<V>(state: map<int, V>, rows: seq<Item<V>>, cache: map<int, V>, n: nat, k: int)
    requires Binds(rows, cache) && n <= |rows|
    ensures Lookup(PutRows(state, rows[..n]), k) ==
            if exists i :: 0 <= i < n && rows[i].key == k then Some(cache[k]) else Lookup(state, k)
    decreases n
  {
    if n > 0 {
      PutRowsLookup(state, rows, cache, n - 1, k);
      assert rows[..n][..n - 1] == rows[..n - 1];
    }
  }

  lemma PutRowsAll<V>(state: map<int, V>, rows: seq<Item<V>>, cache: map<int, V>)
    requires Binds(rows, cache)
    ensures PutRows(state, rows) == state + cache
  {
    assert rows[..|rows|] == rows;
    forall k ensures Lookup(PutRows(state, rows), k) == Lookup(state + cache, k) {
      PutRowsLookup(state, rows, cache, |rows|, k);
      if k in cache {
        var i := FindKey(rows, cache, k);
      }
    }
    SameMap(PutRows(state, rows), state + cache);
  }

  lemma MergeNone<V>(state: map<int, V>)
    ensures state + map[] == state
  {
  }

  lemma PutRowsNext<V>(state: map<int, V>, rows: seq<Item<V>>, i: nat)
    requires i < |rows|
    ensures PutRows(state, rows[..i + 1]) == PutRows(state, rows[..i])[rows[i].key := rows[i].value]
  {
    assert rows[..i + 1][..i] == rows[..i];
  }

  /** What another consumer of the log may do. */
  datatype Reading = Attach | Fetch | Commit | Seek(offset: nat) | Reset | Close | Delete

  /** One such act; consumers of other names do not notice, nor does one that is in use already. */
  method Act(topic: L.Topic, name: string, act: Reading)
    requires topic.Valid() && (act == Attach || name in topic.consumers)
    requires act.Seek? ==> topic.consumers[name].committed <= act.offset
    modifies topic`consumers
    ensures topic.Valid()
    ensures forall c :: c in old(topic.consumers) && (c != name || (act == Attach && old(topic.consumers[c].active))) ==>
              c in topic.consumers && topic.consumers[c] == old(topic.consumers[c])
  {
    match act
    case Attach => var cursor := topic.Consumer(name);
    case Fetch => var record := topic.Next(name);
    case Commit => topic.Commit(name);
    case Seek(offset) => topic.Seek(name, offset);
    case Reset => topic.Reset(name);
    case Close => topic.Close(name);
    case Delete => topic.Delete(name);
  }

  class Table<V(!new)> {
    const inMemory: bool
    const limit: nat
    const codec: Codec<V>
    const cache: S.SkipList<V>
    const topic: L.Topic
    var state: map<int, V>
    var novelPending: nat
    ghost var model: map<int, V>

    /** The log as changes. */
    ghost function Changes(): seq<Change<V>>
      reads topic`history
    {
      Decoded(codec, topic.history)
    }

    /** The recovery consumer is ours and within the log. */
    ghost predicate Attached()
      reads topic`consumers, topic`history
    {
      && RECOVERY in topic.consumers && topic.consumers[RECOVERY].active
      && topic.consumers[RECOVERY].committed <= topic.consumers[RECOVERY].volatile <= |topic.history|
    }

    /** Where recovery would start. */
    ghost function Start(): nat
      requires RECOVERY in topic.consumers
      reads topic`consumers
    {
      topic.consumers[RECOVERY].committed
    }

    /** How far the table has taken the log in. */
    ghost function Taken(): nat
      requires RECOVERY in topic.consumers
      reads topic`consumers
    {
      topic.consumers[RECOVERY].volatile
    }

    /**
     What holds at every point, also between two steps of an operation: replaying the log from the
     recovery cursor over the state gives the table of the whole log.
     */
    ghost predicate Recovers()
      reads this, topic
    {
      && topic.Valid() && Attached() && Lossless(codec)
      && Recoverable(state, Changes(), Start()) && (inMemory ==> Start() == 0)
    }

    ghost predicate Valid()
      reads this, cache, topic
    {
      && cache.Valid() && cache.capacity == S.Bounded(limit) && Recovers()
      && Rows(state, cache.model, model, novelPending) && Kept(cache.model, model, Changes(), Start(), Taken())
      && (if limit >= 1 then Taken() == |topic.history| else cache.model == map[])
    }

    constructor (inMemory: bool, limit: nat, codec: Codec<V>, segmentLimit: nat)
      requires Lossless(codec)
      ensures Valid() && model == map[] && Changes() == [] && fresh(cache) && fresh(topic)
      ensures this.inMemory == inMemory && this.limit == limit && this.codec == codec
    {
      this.inMemory, this.limit, this.codec := inMemory, limit, codec;
      cache := new S.SkipList(S.Bounded(limit));
      topic := new L.Topic(segmentLimit);
      state, novelPending, model := map[], 0, map[];
      new;
      var cursor := topic.Consumer(RECOVERY);
      FromNothing<V>([]);
      MergeNone<V>(map[]);
    }

    /** The last cell applied to the key. */
    method Get(key: int) returns (r: Option<V>)
      requires Valid()
      ensures r == Lookup(model, key)
    {
      r := cache.Get(key);
      if r.None? && key in state {
        r := Some(state[key]);
      }
    }

    /** The number of distinct keys. */
    method Size() returns (n: nat)
      requires Valid()
      ensures n == |model|
    {
      n := |state| + novelPending;
    }

    /** Writes one row that was changed since the cursor to the state. */
    method WriteRow(row: Item<V>)
      requires Recovers() && Touches(Changes()[Start()..], row.key)
      modifies this`state
      ensures Recovers() && state == old(state)[row.key := row.value]
    {
      RecoverableMixed(state, Changes(), Start(), state[row.key := row.value]);
      state := state[row.key := row.value];
    }

    /** Writes every cached row to the state; after each row the table can still be recovered. */
    method WriteRows(rows: seq<Item<V>>)
      requires Recovers() && forall i :: 0 <= i < |rows| ==> Touches(Changes()[Start()..], rows[i].key)
      modifies this`state
      ensures Recovers() && state == PutRows(old(state), rows)
    {
      for i := 0 to |rows|
        invariant Recovers() && state == PutRows(old(state), rows[..i])
      {
        PutRowsNext(old(state), rows, i);
        WriteRow(rows[i]);
      }
      assert rows[..|rows|] == rows;
    }

    method DrainCache()
      requires Valid()
      modifies this`state, this`novelPending, cache
      ensures Valid() && state == model && cache.model == map[]
    {
      var items := cache.Entries();
      RowsDrained(state, cache.model, model, novelPending);
      PutRowsAll(state, items, cache.model);
      WriteRows(items);
      cache.Clear();
      novelPending := 0;
    }

    /** Makes room for one more row. */
    method PrepareCache(key: int)
      requires Valid()
      modifies this`state, this`novelPending, cache
      ensures Valid() && (limit >= 1 ==> key in cache.model || |cache.model| < limit)
    {
      var size := cache.Size();
      var hit := cache.Get(key);
      if size >= limit && hit.None? {
        DrainCache();
      }
    }

    method Flush()
      requires Valid()
      modifies this`state, this`novelPending, cache, topic`consumers
      ensures Valid() && state == model && Taken() == old(Taken())
      ensures Start() == if inMemory then 0 else Taken()
    {
      DrainCache();
      RecoverableAt(Changes(), Taken(), Taken());
      if !inMemory {
        topic.Commit(RECOVERY);
      }
    }

    /** Drops the segments that every consumer of the log, this table included, has committed past. */
    method Compact()
      requires Valid()
      modifies topic
      ensures Valid() && topic.history == old(topic.history) && topic.consumers == old(topic.consumers)
      ensures L.Compacted(old(topic.segments), topic.consumers, topic.segments)
    {
      topic.Compact();
    }

    /** What other consumers of the log do leaves the table alone; the name of its own is taken. */
    method Elsewhere(name: string, act: Reading)
      requires Valid() && (act == Attach || (name != RECOVERY && name in topic.consumers))
      requires act.Seek? ==> topic.consumers[name].committed <= act.offset
      modifies topic`consumers
      ensures Valid() && topic.consumers[RECOVERY] == old(topic.consumers[RECOVERY])
    {
      Act(topic, name, act);
    }

    /**
     Applies an operation to one row. With a cache limit of at least one the row then reads as the
     new cell and the change records what it read as before. With a limit of zero the change is
     appended to the log and then the cache refuses the row.
     */
    method Insert(key: int, apply: Option<V> -> Verdict<V>) returns (r: Result<Outcome<V>, Error>)
      requires Valid()
      requires var was := Lookup(model, key);
               apply(was).Became? ==> |codec.encode(Change(key, was, Some(apply(was).cell)))| <= U32_MAX
      modifies this, cache, topic
      ensures Valid()
      ensures apply(Lookup(old(model), key)).Refused? <==> r == Err(ApplyFailed)
      ensures apply(Lookup(old(model), key)).Unchanged? <==> r == Ok(Ignored)
      ensures !apply(Lookup(old(model), key)).Became? ==> unchanged(this) && unchanged(cache) && unchanged(topic)
      ensures apply(Lookup(old(model), key)).Became? ==>
                var change := Change(key, Lookup(old(model), key), Some(apply(Lookup(old(model), key)).cell));
                && Changes() == old(Changes()) + [change]
                && r == (if limit >= 1 then Ok(Applied(change)) else Err(CacheFull))
                && model == (if limit >= 1 then old(model)[key := change.current.value] else old(model))
      ensures limit >= 1 && Linked(old(Changes())) ==> Linked(Changes())
    {
      var previous := Get(key);
      var verdict := apply(previous);
      if verdict.Refused? {
        return Err(ApplyFailed);
      }
      if verdict.Unchanged? {
        return Ok(Ignored);
      }
      PrepareCache(key);
      var change := Change(key, previous, Some(verdict.cell));
      if limit >= 1 && Linked(Changes()) {
        assert Changes()[..|Changes()|] == Changes();
        LinkedMore(Changes(), change);
      }
      r := Record(change, verdict.cell);
    }

    /** Appends a change to the log. Nothing else has happened yet, and the change is already recovered. */
    method Log(change: Change<V>) returns (offset: nat)
      requires Recovers() && |codec.encode(change)| <= U32_MAX
      modifies topic
      ensures Recovers() && Changes() == old(Changes()) + [change] && offset == old(|topic.history|)
      ensures topic.consumers == old(topic.consumers)
    {
      RecoverableMore(state, Changes(), Start(), change);
      DecodedMore(codec, topic.history, change, codec.encode(change));
      offset := topic.Append(codec.encode(change));
    }

    /** Appends the change and caches the row. */
    method Record(change: Change<V>, cell: V) returns (r: Result<Outcome<V>, Error>)
      requires Valid() && change.previous == Lookup(model, change.key) && change.current == Some(cell)
      requires |codec.encode(change)| <= U32_MAX
      requires limit >= 1 ==> change.key in cache.model || |cache.model| < limit
      modifies this`novelPending, this`model, cache, topic
      ensures Valid() && Changes() == old(Changes()) + [change]
      ensures r == if limit >= 1 then Ok(Applied(change)) else Err(CacheFull)
      ensures model == if limit >= 1 then old(model)[change.key := cell] else old(model)
    {
      ghost var c0, h0 := cache.model, Changes();
      var offset := Log(change);
      var put := cache.Put(change.key, cell);
      if put.Err? {
        KeptBehind(model, h0, Start(), Taken(), change);
        return Err(CacheFull);
      }
      Settle(change, cell, offset, c0, h0);
      return Ok(Applied(change));
    }

    /** Takes the change just cached into account. */
    method Settle(change: Change<V>, cell: V, offset: nat, ghost c0: map<int, V>, ghost h0: seq<Change<V>>)
      requires cache.Valid() && cache.capacity == S.Bounded(limit) && Recovers() && limit >= 1
      requires Rows(state, c0, model, novelPending) && Kept(c0, model, h0, Start(), |h0|)
      requires change.previous == Lookup(model, change.key) && change.current == Some(cell)
      requires cache.model == c0[change.key := cell] && Changes() == h0 + [change] && offset == |h0|
      modifies this`novelPending, this`model, topic`consumers
      ensures Valid() && model == old(model)[change.key := cell]
    {
      RowsPut(state, c0, model, novelPending, change.key, cell);
      KeptMore(c0, model, h0, Start(), change, cell);
      Finish(if change.previous.None? then novelPending + 1 else novelPending, offset + 1, model[change.key := cell]);
    }

    method Finish(novel: nat, tail: nat, ghost rows: map<int, V>)
      requires cache.Valid() && cache.capacity == S.Bounded(limit) && Recovers() && tail == |topic.history| && limit >= 1
      requires Rows(state, cache.model, rows, novel) && Kept(cache.model, rows, Changes(), Start(), tail)
      modifies this`novelPending, this`model, topic`consumers
      ensures Valid() && model == rows
    {
      novelPending, model := novel, rows;
      topic.Seek(RECOVERY, tail);
    }

    /** A table over a log whose recovery consumer has just been attached: the changes from its cursor on are replayed. */
    constructor Over(inMemory: bool, limit: nat, codec: Codec<V>, disk: map<int, V>, topic: L.Topic)
      requires Lossless(codec) && topic.Valid() && RECOVERY in topic.consumers && topic.consumers[RECOVERY].active
      requires topic.consumers[RECOVERY].volatile == topic.consumers[RECOVERY].committed
      modifies topic`consumers
      ensures this.inMemory == inMemory && this.limit == limit && this.codec == codec && this.topic == topic && fresh(cache)
      ensures var start := old(topic.consumers[RECOVERY].committed);
              start <= |topic.history| ==>
                && state == Replayed(disk, Changes()[start..])
                && (state == Final(Changes()) <==> Recoverable(disk, Changes(), start))
                && (Recoverable(disk, Changes(), start) && (inMemory ==> start == 0) ==>
                      Valid() && model == state && Start() == if inMemory then 0 else |topic.history|)
    {
      this.inMemory, this.limit, this.codec, this.topic := inMemory, limit, codec, topic;
      cache := new S.SkipList(S.Bounded(limit));
      var rows := ReplayAll(disk, topic, codec, inMemory);
      state, novelPending, model := rows, 0, rows;
      new;
      MergeNone(state);
      assert Changes()[..|Changes()|] == Changes();
    }

    /**
     Opens the files of a table. If its log is intact up to offset `k`, the table is that of the log up
     to `k` exactly when the state on disk is recoverable from the stored cursor.
     */
    static method Open(inMemory: bool, limit: nat, codec: Codec<V>, disk: map<int, V>, segmentLimit: nat, files: seq<L.Found>,
                       offsets: map<string, nat>, ghost h: seq<F.Payload>) returns (r: Result<Table<V>, F.Error>, ghost k: nat)
      requires Lossless(codec) && files != [] && forall i :: 0 <= i < |files| ==> |files[i].file| >= F.HEADER
      requires (forall i :: 0 <= i < |files| ==> L.Marked(files[i])) ==> L.OnDisk(files, h, segmentLimit)
      requires forall c :: c in offsets ==> files[0].base <= offsets[c]
      ensures r.Ok? <==> forall i :: 0 <= i < |files| ==> L.Marked(files[i])
      ensures r.Ok? ==> fresh(r.value) && files[|files| - 1].base <= k <= |h| && r.value.topic.history == h[..k]
      ensures r.Ok? && k < |h| ==> |files[|files| - 1].file| < F.Length(h[files[|files| - 1].base..k + 1])
      ensures r.Ok? ==> var start := if RECOVERY in offsets then offsets[RECOVERY] else k;
                        var t, changes := r.value, Decoded(codec, h[..k]);
                        start <= k ==>
                          && t.state == Replayed(disk, changes[start..])
                          && (t.state == Final(changes) <==> Recoverable(disk, changes, start))
                          && (Recoverable(disk, changes, start) && (inMemory ==> start == 0) ==> t.Valid() && t.model == t.state)
    {
      var loaded;
      loaded, k := L.Topic.Open(segmentLimit, files, offsets, h);
      if loaded.Err? {
        return Err(loaded.error), k;
      }
      var topic := loaded.value;
      var cursor := topic.Consumer(RECOVERY);
      var t := new Table.Over(inMemory, limit, codec, disk, topic);
      return Ok(t), k;
    }

    /**
     A crash may leave in the state any part of what was written to it for keys changed since the cursor.
     Nothing the recovery needs has been compacted, and the replay gives the table of the whole log.
     */
    lemma CrashSafe(disk: map<int, V>)
      requires Recovers() && forall k :: !Touches(Changes()[Start()..], k) ==> Lookup(disk, k) == Lookup(state, k)
      ensures Recoverable(disk, Changes(), Start()) && Replayed(disk, Changes()[Start()..]) == Final(Changes())
      ensures forall offset :: Start() <= offset < |topic.history| ==> L.Covered(topic.segments, offset)
      ensures inMemory ==> Recoverable(map[], Changes(), Start())
    {
      RecoverableMixed(state, Changes(), Start(), disk);
      RecoveryExact(disk, Changes(), Start());
      forall offset | Start() <= offset < |topic.history| ensures L.Covered(topic.segments, offset) {
        L.Retained(topic.segments, offset);
      }
      FromNothing(Changes());
    }

    /** Opening what such a crash leaves gives a valid table with the rows of the whole log. */
    method Reopen(disk: map<int, V>, cacheLimit: nat) returns (t: Table<V>)
      requires Recovers() && forall k :: !Touches(Changes()[Start()..], k) ==> Lookup(disk, k) == Lookup(state, k)
      ensures fresh(t) && t.Valid() && t.topic.history == topic.history && t.model == Final(Changes())
    {
      CrashSafe(disk);
      var files, offsets := topic.Saved();
      var r;
      ghost var k;
      r, k := Open(inMemory, cacheLimit, codec, disk, topic.limit, files, offsets, topic.history);
      assert topic.history[..k] == topic.history;
      t := r.value;
    }

    /** All rows in key order, given those of the state. */
    method Entries(rows: seq<Item<V>>) returns (r: seq<Item<V>>)
      requires Valid() && Binds(rows, state)
      ensures Binds(r, model)
    {
      var cached := cache.Entries();
      var merged := new MergedEntries(Up, rows, cached);
      r := merged.Collect();
      UnionBinds(rows, state, cached, cache.model, r);
    }
  }

  lemma Recovered<V(!new)>(disk: map<int, V>, history: seq<Change<V>>, start: nat)
    requires start <= |history|
    ensures Replayed(disk, history[start..]) == Final(history) <==> Recoverable(disk, history, start)
    ensures Recoverable(Final(history), history, start) && Recoverable(Final(history), history, |history|)
  {
    assert history[..|history|] == history;
    RecoverableAt(history, start, |history|);
    RecoverableAt(history, |history|, |history|);
    if Recoverable(disk, history, start) {
      RecoveryExact(disk, history, start);
    }
    if Replayed(disk, history[start..]) == Final(history) {
      RecoveryNeeds(disk, history, start);
    }
  }

  /** Only the recovery cursor differs, and it is at `at`. */
  ghost predicate Moved(c0: map<string, L.Cursor>, c1: map<string, L.Cursor>, at: nat) {
    && RECOVERY in c0 && RECOVERY in c1 && c1[RECOVERY] == c0[RECOVERY].(volatile := at)
    && forall c :: c != RECOVERY ==> Lookup(c1, c) == Lookup(c0, c)
  }

  lemma MovedTwice(c0: map<string, L.Cursor>, c1: map<string, L.Cursor>, c2: map<string, L.Cursor>, a: nat, b: nat)
    requires Moved(c0, c1, a) && Moved(c1, c2, b)
    ensures Moved(c0, c2, b)
  {
  }

  /** Replays one change, if there is one left. */
  method ReplayNext<V(!new)>(state: map<int, V>, topic: L.Topic, codec: Codec<V>) returns (more: bool, state': map<int, V>)
    requires topic.Valid() && RECOVERY in topic.consumers
    modifies topic`consumers
    ensures topic.Valid()
    ensures var at := old(topic.consumers[RECOVERY].volatile);
            && more == (at < |topic.history|)
            && Moved(old(topic.consumers), topic.consumers, if more then at + 1 else at)
            && state' == if more then Written(state, codec.decode(topic.history[at])) else state
  {
    var record := topic.Next(RECOVERY);
    more := record.Some?;
    state' := if more then Written(state, codec.decode(record.value)) else state;
  }

  /** Reads the log from the recovery cursor to its end and writes each change to the state. */
  method Replay<V(!new)>(disk: map<int, V>, topic: L.Topic, codec: Codec<V>) returns (state: map<int, V>)
    requires topic.Valid() && RECOVERY in topic.consumers
    modifies topic`consumers
    ensures topic.Valid()
    ensures var start, h := old(topic.consumers[RECOVERY].volatile), Decoded(codec, topic.history);
            && Moved(old(topic.consumers), topic.consumers, if start <= |h| then |h| else start)
            && (start <= |h| ==> state == Replayed(disk, h[start..]))
  {
    state := disk;
    ghost var c0, h, start := topic.consumers, Decoded(codec, topic.history), topic.consumers[RECOVERY].volatile;
    ghost var at := start;
    var more := true;
    while more
      invariant topic.Valid() && Moved(c0, topic.consumers, at) && start <= at
      invariant (at <= |h| ==> state == Replayed(disk, h[start..at])) && (at > |h| ==> at == start)
      invariant !more ==> at >= |h|
      decreases |h| - at, more
    {
      if at < |h| {
        ReplayedNext(disk, h, start, at);
      }
      ghost var c1, was := topic.consumers, at;
      more, state := ReplayNext(state, topic, codec);
      at := if more then at + 1 else at;
      MovedTwice(c0, c1, topic.consumers, was, at);
    }
    if start <= |h| {
      assert h[start..|h|] == h[start..];
    }
  }

  /** Replays the log and, for a durable state, commits that all of it has been taken in. */
  method ReplayAll<V(!new)>(disk: map<int, V>, topic: L.Topic, codec: Codec<V>, inMemory: bool) returns (state: map<int, V>)
    requires topic.Valid() && RECOVERY in topic.consumers
    requires topic.consumers[RECOVERY].volatile == topic.consumers[RECOVERY].committed
    modifies topic`consumers
    ensures topic.Valid() && RECOVERY in topic.consumers && topic.consumers[RECOVERY].active == old(topic.consumers[RECOVERY].active)
    ensures var start, h := old(topic.consumers[RECOVERY].committed), Decoded(codec, topic.history);
            start <= |h| ==>
              && state == Replayed(disk, h[start..]) && (state == Final(h) <==> Recoverable(disk, h, start))
              && topic.consumers[RECOVERY].committed == (if inMemory then start else |h|) && topic.consumers[RECOVERY].volatile == |h|
              && (state == Final(h) ==> Recoverable(state, h, topic.consumers[RECOVERY].committed))
  {
    ghost var h, start := Decoded(codec, topic.history), topic.consumers[RECOVERY].committed;
    state := Replay(disk, topic, codec);
    if !inMemory {
      topic.Commit(RECOVERY);
    }
    if start <= |h| {
      Recovered(disk, h, start);
    }
  }

  // ---- merged rows ---------------------------------------------------------------------------

  function KeysOf<V>(rows: seq<Item<V>>): set<int> {
    if rows == [] then {} else KeysOf(rows[..|rows| - 1]) + {rows[|rows| - 1].key}
  }

  lemma {:induction false} KeyCount<V>(rows: seq<Item<V>>)
    requires Ascending(rows)
    ensures |KeysOf(rows)| == |rows| && forall k :: k in KeysOf(rows) <==> exists i :: 0 <= i < |rows| && rows[i].key == k
  {
    if rows != [] {
      var front := rows[..|rows| - 1];
      KeyCount(front);
      forall k ensures k in KeysOf(rows) <==> exists i :: 0 <= i < |rows| && rows[i].key == k {
        if i :| 0 <= i < |front| && front[i].key == k {
          assert rows[i].key == k;
        }
        if i :| 0 <= i < |rows| - 1 && rows[i].key == k {
          assert front[i].key == k;
        }
      }
    }
  }

  lemma InBound<V(!new)>(rows: seq<Item<V>>, m: map<int, V>, row: Item<V>)
    requires Binds(rows, m)
    ensures row in rows <==> row.key in m && m[row.key] == row.value
    ensures HasKey(rows, row.key) <==> row.key in m
  {
    if row.key in m {
      var i := FindKey(rows, m, row.key);
      assert rows[i] in rows;
    }
  }

  lemma ListBinds<V(!new)>(r: seq<Item<V>>, m: map<int, V>)
    requires Ascending(r) && forall row :: row in r <==> row.key in m && m[row.key] == row.value
    ensures Binds(r, m)
  {
    forall k ensures k in m.Keys <==> exists i :: 0 <= i < |r| && r[i].key == k {
      if k in m {
        assert Item(k, m[k]) in r;
      }
    }
    KeyCount(r);
    assert KeysOf(r) == m.Keys;
  }

  lemma UnionBinds<V(!new)>(rows: seq<Item<V>>, state: map<int, V>, cached: seq<Item<V>>, cache: map<int, V>, r: seq<Item<V>>)
    requires Binds(rows, state) && Binds(cached, cache) && Sorted(Up, r)
    requires forall row :: row in r <==> InUnion(rows, cached, row)
    ensures Binds(r, state + cache)
  {
    forall row ensures row in r <==> row.key in state + cache && (state + cache)[row.key] == row.value {
      InBound(rows, state, row);
      InBound(cached, cache, row);
    }
    ListBinds(r, state + cache);
  }
}
