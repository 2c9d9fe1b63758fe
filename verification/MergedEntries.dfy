/** The lazy merge of the rows in state and the newer rows in the cache. */
module MergedRows {
  import opened Base
  import opened Bindings

  datatype Order = Up | Down

  /** `a` comes before `b` in this direction. */
  predicate Precedes(order: Order, a: int, b: int) {
    if order.Up? then a < b else a > b
  }

  ghost predicate Sorted<V>(order: Order, rows: seq<Item<V>>) {
    forall i, j :: 0 <= i < j < |rows| ==> Precedes(order, rows[i].key, rows[j].key)
  }

  ghost predicate HasKey<V(!new)>(rows: seq<Item<V>>, key: int) {
    exists row :: row in rows && row.key == key
  }

  /** The union of the rows, cache rows replacing state rows of the same key. */
  ghost predicate InUnion<V(!new)>(state: seq<Item<V>>, cache: seq<Item<V>>, row: Item<V>) {
    row in cache || (row in state && !HasKey(cache, row.key))
  }

  lemma HeadLeast<V(!new)>(order: Order, rows: seq<Item<V>>, row: Item<V>)
    requires Sorted(order, rows) && row in rows
    ensures row == rows[0] || Precedes(order, rows[0].key, row.key)
  {
    var i :| 0 <= i < |rows| && rows[i] == row;
  }

  lemma Popped<V(!new)>(order: Order, rows: seq<Item<V>>, row: Item<V>)
    requires Sorted(order, rows) && rows != []
    ensures Sorted(order, rows[1..])
    ensures row in rows[1..] <==> row in rows && Precedes(order, rows[0].key, row.key)
  {
    if row in rows {
      HeadLeast(order, rows, row);
    }
    if row in rows && Precedes(order, rows[0].key, row.key) {
      var i :| 0 <= i < |rows| && rows[i] == row;
      assert rows[1..][i - 1] == row;
    }
    if row in rows[1..] {
      var i :| 0 <= i < |rows[1..]| && rows[1..][i] == row;
      assert rows[i + 1] == row;
    }
  }

  lemma PoppedKey<V(!new)>(order: Order, rows: seq<Item<V>>, key: int)
    requires Sorted(order, rows) && rows != []
    ensures HasKey(rows[1..], key) <==> HasKey(rows, key) && Precedes(order, rows[0].key, key)
  {
    if HasKey(rows[1..], key) {
      var row :| row in rows[1..] && row.key == key;
      Popped(order, rows, row);
    }
    if HasKey(rows, key) && Precedes(order, rows[0].key, key) {
      var row :| row in rows && row.key == key;
      Popped(order, rows, row);
    }
  }

  /** Two sorted inputs, consumed from the front. */
  class MergedEntries<V(!new)> {
    const order: Order
    var state: seq<Item<V>>
    var cache: seq<Item<V>>

    ghost predicate Valid()
      reads this
    {
      Sorted(order, state) && Sorted(order, cache)
    }

    constructor (order: Order, state: seq<Item<V>>, cache: seq<Item<V>>)
      requires Sorted(order, state) && Sorted(order, cache)
      ensures Valid() && this.order == order && this.state == state && this.cache == cache
    {
      this.order, this.state, this.cache := order, state, cache;
    }

    /**
     The next row: the first of the union, after which the union of what is left is exactly the rows
     after it.
     */
    method Next() returns (r: Option<Item<V>>)
      requires Valid()
      modifies this
      ensures Valid() && |state| + |cache| <= old(|state| + |cache|) && (r.Some? ==> |state| + |cache| < old(|state| + |cache|))
      ensures r.None? <==> old(state) == [] && old(cache) == []
      ensures r.Some? ==> InUnion(old(state), old(cache), r.value)
      ensures r.Some? ==> forall row :: InUnion(state, cache, row) <==>
                                        InUnion(old(state), old(cache), row) && Precedes(order, r.value.key, row.key)
      ensures r.Some? ==> forall row :: InUnion(old(state), old(cache), row) ==> row == r.value || Precedes(order, r.value.key, row.key)
    {
      ghost var s, c := state, cache;
      if state == [] && cache == [] {
        return None;
      } else if cache == [] || (state != [] && Precedes(order, state[0].key, cache[0].key)) {
        r := Some(state[0]);
        TookState(order, s, c);
        state := state[1..];
      } else if state == [] || Precedes(order, cache[0].key, state[0].key) {
        r := Some(cache[0]);
        TookCache(order, s, c);
        cache := cache[1..];
      } else {
        r := Some(cache[0]);
        TookBoth(order, s, c);
        state, cache := state[1..], cache[1..];
      }
    }

    /** Everything left, in order and each key once. */
    method Collect() returns (rows: seq<Item<V>>)
      requires Valid()
      modifies this
      ensures Sorted(order, rows)
      ensures forall i, j :: 0 <= i < j < |rows| ==> if order.Up? then rows[i].key < rows[j].key else rows[i].key > rows[j].key
      ensures forall row :: row in rows <==> InUnion(old(state), old(cache), row)
    {
      rows := [];
      ghost var s, c := state, cache;
      while true
        invariant Valid() && Sorted(order, rows)
        invariant forall row :: InUnion(s, c, row) <==> row in rows || InUnion(state, cache, row)
        invariant forall i, row :: 0 <= i < |rows| && InUnion(state, cache, row) ==> Precedes(order, rows[i].key, row.key)
        decreases |state| + |cache|
      {
        var r := Next();
        if r.None? {
          return;
        }
        rows := rows + [r.value];
      }
    }
  }

  /** The first row of the union and what remains, when it comes from state. */
  ghost predicate Took<V(!new)>(order: Order, s: seq<Item<V>>, c: seq<Item<V>>, r: Item<V>, s': seq<Item<V>>, c': seq<Item<V>>) {
    && Sorted(order, s') && Sorted(order, c') && InUnion(s, c, r)
    && (forall row :: InUnion(s', c', row) <==> InUnion(s, c, row) && Precedes(order, r.key, row.key))
    && (forall row :: InUnion(s, c, row) ==> row == r || Precedes(order, r.key, row.key))
  }

  lemma TookState<V(!new)>(order: Order, s: seq<Item<V>>, c: seq<Item<V>>)
    requires Sorted(order, s) && Sorted(order, c) && s != [] && (c == [] || Precedes(order, s[0].key, c[0].key))
    ensures Took(order, s, c, s[0], s[1..], c)
  {
    Popped(order, s, s[0]);
    forall row | row in c ensures Precedes(order, s[0].key, row.key) {
      HeadLeast(order, c, row);
    }
    forall row ensures InUnion(s[1..], c, row) <==> InUnion(s, c, row) && Precedes(order, s[0].key, row.key) {
      Popped(order, s, row);
    }
    forall row | InUnion(s, c, row) ensures row == s[0] || Precedes(order, s[0].key, row.key) {
      if row in s {
        HeadLeast(order, s, row);
      }
    }
  }

  lemma TookCache<V(!new)>(order: Order, s: seq<Item<V>>, c: seq<Item<V>>)
    requires Sorted(order, s) && Sorted(order, c) && c != [] && (s == [] || Precedes(order, c[0].key, s[0].key))
    ensures Took(order, s, c, c[0], s, c[1..])
  {
    Popped(order, c, c[0]);
    forall row | row in s ensures Precedes(order, c[0].key, row.key) {
      HeadLeast(order, s, row);
    }
    forall row ensures InUnion(s, c[1..], row) <==> InUnion(s, c, row) && Precedes(order, c[0].key, row.key) {
      Popped(order, c, row);
      PoppedKey(order, c, row.key);
    }
    forall row | InUnion(s, c, row) ensures row == c[0] || Precedes(order, c[0].key, row.key) {
      if row in c {
        HeadLeast(order, c, row);
      }
    }
  }

  lemma TookBoth<V(!new)>(order: Order, s: seq<Item<V>>, c: seq<Item<V>>)
    requires Sorted(order, s) && Sorted(order, c) && s != [] && c != [] && s[0].key == c[0].key
    ensures Took(order, s, c, c[0], s[1..], c[1..])
  {
    Popped(order, s, s[0]);
    Popped(order, c, c[0]);
    forall row ensures InUnion(s[1..], c[1..], row) <==> InUnion(s, c, row) && Precedes(order, c[0].key, row.key) {
      Popped(order, s, row);
      Popped(order, c, row);
      PoppedKey(order, c, row.key);
    }
    forall row | InUnion(s, c, row) ensures row == c[0] || Precedes(order, c[0].key, row.key) {
      if row in c {
        HeadLeast(order, c, row);
      } else {
        HeadLeast(order, s, row);
        assert c[0] in c;
      }
    }
  }
}
