/** What a table's change log means, and why replaying its tail recovers the table. */
module TableHistories {
  import opened Base

  datatype Change<+V> = Change(key: int, previous: Option<V>, current: Option<V>)

  /** One change written to a state: a row put or deleted. */
  function Written<V>(m: map<int, V>, c: Change<V>): map<int, V> {
    if c.current.Some? then m[c.key := c.current.value] else m - {c.key}
  }

  /** A state after a stretch of the log has been replayed over it. */
  function Replayed<V>(m: map<int, V>, changes: seq<Change<V>>): map<int, V> {
    if changes == [] then m else Written(Replayed(m, changes[..|changes| - 1]), changes[|changes| - 1])
  }

  /** The last `current` of every key. */
  function Final<V>(history: seq<Change<V>>): map<int, V> {
    Replayed(map[], history)
  }

  predicate Touches<V>(changes: seq<Change<V>>, k: int) {
    exists i :: 0 <= i < |changes| && changes[i].key == k
  }

  /** Every change carries what its key held just before it. */
  ghost predicate Linked<V>(history: seq<Change<V>>) {
    forall i :: 0 <= i < |history| ==> history[i].previous == Lookup(Final(history[..i]), history[i].key)
  }

  lemma ReplayedMore<V>(m: map<int, V>, changes: seq<Change<V>>, c: Change<V>)
    ensures Replayed(m, changes + [c]) == Written(Replayed(m, changes), c)
  {
    assert (changes + [c])[..|changes|] == changes;
  }

  lemma ReplayedNext<V>(m: map<int, V>, history: seq<Change<V>>, start: nat, at: nat)
    requires start <= at < |history|
    ensures Replayed(m, history[start..at + 1]) == Written(Replayed(m, history[start..at]), history[at])
  {
    assert history[start..at] + [history[at]] == history[start..at + 1];
    ReplayedMore(m, history[start..at], history[at]);
  }

  lemma TouchesMore<V>(changes: seq<Change<V>>, c: Change<V>, k: int)
    ensures Touches(changes + [c], k) <==> Touches(changes, k) || c.key == k
  {
    var more := changes + [c];
    if Touches(changes, k) {
      var i :| 0 <= i < |changes| && changes[i].key == k;
      assert more[i].key == k;
    }
    if c.key == k {
      assert more[|changes|].key == k;
    }
  }

  lemma {:induction false} ReplayedTwice<V>(m: map<int, V>, a: seq<Change<V>>, b: seq<Change<V>>)
    ensures Replayed(m, a + b) == Replayed(Replayed(m, a), b)
    decreases |b|
  {
    if b == [] {
      assert a + b == a;
    } else {
      var front, c := b[..|b| - 1], b[|b| - 1];
      ReplayedTwice(m, a, front);
      assert a + b == (a + front) + [c];
      ReplayedMore(m, a + front, c);
    }
  }

  /** For a key touched by the changes, the state they are replayed over does not matter. */
  lemma {:induction false} ReplayedLookup<V>(m: map<int, V>, n: map<int, V>, changes: seq<Change<V>>, k: int)
    ensures Touches(changes, k) ==> Lookup(Replayed(m, changes), k) == Lookup(Replayed(n, changes), k)
    ensures !Touches(changes, k) ==> Lookup(Replayed(m, changes), k) == Lookup(m, k)
    decreases |changes|
  {
    if changes != [] {
      var front, c := changes[..|changes| - 1], changes[|changes| - 1];
      assert changes == front + [c];
      TouchesMore(front, c, k);
      ReplayedLookup(m, n, front, k);
    }
  }

  lemma SameMap<V>(m: map<int, V>, n: map<int, V>)
    requires forall k :: Lookup(m, k) == Lookup(n, k)
    ensures m == n
  {
    forall k ensures k in m <==> k in n {
      assert Lookup(m, k) == Lookup(n, k);
    }
    forall k | k in m ensures m[k] == n[k] {
      assert Lookup(m, k) == Lookup(n, k);
    }
  }

  /** The state on disk holds the rows of the table, save for keys changed since the cursor. */
  ghost predicate Recoverable<V(!new)>(disk: map<int, V>, history: seq<Change<V>>, cursor: nat)
    requires cursor <= |history|
  {
    forall k :: !Touches(history[cursor..], k) ==> Lookup(disk, k) == Lookup(Final(history), k)
  }

  /** Recovery is exact: replaying from the cursor over any such state yields the table. */
  lemma RecoveryExact<V(!new)>(disk: map<int, V>, history: seq<Change<V>>, cursor: nat)
    requires cursor <= |history| && Recoverable(disk, history, cursor)
    ensures Replayed(disk, history[cursor..]) == Final(history)
  {
    var tail, base := history[cursor..], Final(history[..cursor]);
    assert history[..cursor] + tail == history;
    ReplayedTwice(map[], history[..cursor], tail);
    forall k ensures Lookup(Replayed(disk, tail), k) == Lookup(Final(history), k) {
      ReplayedLookup(disk, base, tail, k);
    }
    SameMap(Replayed(disk, tail), Final(history));
  }

  /** Nothing else would do: the replay is exact only over such a state. */
  lemma RecoveryNeeds<V(!new)>(disk: map<int, V>, history: seq<Change<V>>, cursor: nat)
    requires cursor <= |history| && Replayed(disk, history[cursor..]) == Final(history)
    ensures Recoverable(disk, history, cursor)
  {
    forall k | !Touches(history[cursor..], k) ensures Lookup(disk, k) == Lookup(Final(history), k) {
      ReplayedLookup(disk, disk, history[cursor..], k);
    }
  }

  /** An empty state recovers from the start of the log: an in-memory table replays its whole history. */
  lemma FromNothing<V(!new)>(history: seq<Change<V>>)
    ensures Recoverable(map[], history, 0)
  {
    forall k | !Touches(history[0..], k) ensures Lookup(map[], k) == Lookup(Final(history), k) {
      assert history[0..] == history;
      ReplayedLookup(map[], map[], history, k);
    }
  }

  /** Writing to keys changed since the cursor, in any order and to any extent, leaves the state recoverable. */
  lemma RecoverableMixed<V(!new)>(disk: map<int, V>, history: seq<Change<V>>, cursor: nat, disk': map<int, V>)
    requires cursor <= |history| && Recoverable(disk, history, cursor)
    requires forall k :: !Touches(history[cursor..], k) ==> Lookup(disk', k) == Lookup(disk, k)
    ensures Recoverable(disk', history, cursor)
  {
  }

  /** A recovery that stopped part of the way can start over: what it wrote does no harm. */
  lemma RecoveryRestarts<V(!new)>(disk: map<int, V>, history: seq<Change<V>>, cursor: nat, i: nat)
    requires cursor <= i <= |history| && Recoverable(disk, history, cursor)
    ensures Recoverable(Replayed(disk, history[cursor..i]), history, cursor)
  {
    forall k | !Touches(history[cursor..], k) ensures Lookup(Replayed(disk, history[cursor..i]), k) == Lookup(disk, k) {
      ReplayedLookup(disk, disk, history[cursor..i], k);
    }
  }

  /** The rows as of some offset recover from that offset, and from any earlier one. */
  lemma RecoverableAt<V(!new)>(history: seq<Change<V>>, cursor: nat, at: nat)
    requires cursor <= at <= |history|
    ensures Recoverable(Final(history[..at]), history, cursor)
  {
    assert history[..at] + history[at..] == history;
    ReplayedTwice(map[], history[..at], history[at..]);
    forall k | !Touches(history[cursor..], k) ensures Lookup(Final(history[..at]), k) == Lookup(Final(history), k) {
      if Touches(history[at..], k) {
        TouchesLater(history, cursor, at, k);
      }
      ReplayedLookup(Final(history[..at]), map[], history[at..], k);
    }
  }

  lemma TouchesLater<V>(history: seq<Change<V>>, cursor: nat, at: nat, k: int)
    requires cursor <= at <= |history| && Touches(history[at..], k)
    ensures Touches(history[cursor..], k)
  {
    var i :| 0 <= i < |history[at..]| && history[at..][i].key == k;
    assert history[cursor..][at - cursor + i].key == k;
  }

  /** A new change and any state that differs only at its key or not at all. */
  lemma RecoverableMore<V(!new)>(disk: map<int, V>, history: seq<Change<V>>, cursor: nat, c: Change<V>)
    requires cursor <= |history| && Recoverable(disk, history, cursor)
    ensures Recoverable(disk, history + [c], cursor)
  {
    var more := history + [c];
    assert more[cursor..] == history[cursor..] + [c];
    ReplayedMore(map[], history, c);
    forall k | !Touches(more[cursor..], k) ensures Lookup(disk, k) == Lookup(Final(more), k) {
      TouchesMore(history[cursor..], c, k);
    }
  }

  lemma LinkedMore<V>(history: seq<Change<V>>, c: Change<V>)
    requires Linked(history) && c.previous == Lookup(Final(history), c.key)
    ensures Linked(history + [c])
  {
    var more := history + [c];
    forall i | 0 <= i < |more| ensures more[i].previous == Lookup(Final(more[..i]), more[i].key) {
      assert more[..i] == history[..i];
      assert history[..|history|] == history;
    }
  }
}
