/** Maps of clocks that only move forward, and the histories of replicas that hold them. */
module ClockMaps {
  import opened Base
  import opened Stamps

  type Clocks<!K> = map<K, Stamp>

  /** The later clock for every key. */
  function Join<K>(a: Clocks<K>, b: Clocks<K>): Clocks<K> {
    map k | k in a.Keys + b.Keys :: if k !in a then b[k] else if k !in b || !Less(a[k], b[k]) then a[k] else b[k]
  }

  /** The map holds the latest of the clocks contributed for each key. */
  ghost predicate Tops<K(!new)>(m: Clocks<K>, s: set<(K, Stamp)>) {
    && (forall k :: k in m ==> (k, m[k]) in s)
    && (forall p :: p in s ==> p.0 in m && Leq(p.1, m[p.0]))
  }

  lemma JoinTops<K(!new)>(a: Clocks<K>, s: set<(K, Stamp)>, b: Clocks<K>, t: set<(K, Stamp)>)
    requires Tops(a, s) && Tops(b, t)
    ensures Tops(Join(a, b), s + t)
  {
    var m := Join(a, b);
    forall p | p in s + t ensures p.0 in m && Leq(p.1, m[p.0]) {
    }
  }

  lemma TopsUnique<K(!new)>(a: Clocks<K>, b: Clocks<K>, s: set<(K, Stamp)>)
    requires Tops(a, s) && Tops(b, s)
    ensures a == b
  {
    forall k | k in a ensures k in b && a[k] == b[k] {
      assert (k, a[k]) in s;
      assert (k, b[k]) in s;
    }
    forall k | k in b ensures k in a {
      assert (k, b[k]) in s;
    }
  }

  /** Advances one clock; the flag rises if it moved. */
  method Advance<K(==)>(m: Clocks<K>, k: K, stamp: Stamp, changed: bool) returns (r: Clocks<K>, flag: bool)
    ensures r == Join(m, map[k := stamp]) && flag == (changed || r != m)
  {
    r, flag := m, changed;
    if k !in m || Less(m[k], stamp) {
      r, flag := m[k := stamp], true;
      assert k in m ==> r[k] != m[k];
    }
  }

  lemma JoinMore<K>(m: Clocks<K>, c: Clocks<K>, k: K, stamp: Stamp)
    requires k in c ==> c[k] == stamp
    ensures Join(Join(m, c), map[k := stamp]) == Join(m, c[k := stamp])
  {
  }

  lemma JoinNone<K>(m: Clocks<K>)
    ensures Join(m, map[]) == m
  {
  }

  /** Once a contribution has moved a clock, a larger one has too. */
  lemma MovedStays<K>(m: Clocks<K>, small: Clocks<K>, large: Clocks<K>)
    requires forall k :: k in small ==> k in large && large[k] == small[k]
    ensures Join(m, large) == m ==> Join(m, small) == m
  {
    if Join(m, large) == m {
      forall k | k in small ensures k in m && !Less(m[k], small[k]) {
        assert k in Join(m, large) && Join(m, large)[k] == m[k];
      }
    }
  }

  /** Sets the clocks of all these keys forward. */
  method AdvanceAll<K(==)>(m: Clocks<K>, keys: seq<K>, stamp: Stamp) returns (r: Clocks<K>, changed: bool)
    ensures r == Join(m, map k | k in keys :: stamp) && changed == (r != m)
  {
    r, changed := m, false;
    ghost var c: Clocks<K> := map[];
    JoinNone(m);
    for i := 0 to |keys|
      invariant c == map k | k in keys[..i] :: stamp
      invariant r == Join(m, c) && changed == (r != m)
    {
      assert keys[..i + 1] == keys[..i] + [keys[i]];
      JoinMore(m, c, keys[i], stamp);
      MovedStays(m, c, c[keys[i] := stamp]);
      r, changed := Advance(r, keys[i], stamp, changed);
      c := c[keys[i] := stamp];
    }
    assert keys[..|keys|] == keys;
  }

  /** Takes over the later of the remote clocks. */
  method JoinAll<K(==)>(m: Clocks<K>, remote: Clocks<K>) returns (r: Clocks<K>, changed: bool)
    ensures r == Join(m, remote) && changed == (r != m)
  {
    r, changed := m, false;
    ghost var c: Clocks<K> := map[];
    var rest := remote.Keys;
    JoinNone(m);
    while rest != {}
      invariant rest <= remote.Keys && c.Keys == remote.Keys - rest && forall k :: k in c ==> c[k] == remote[k]
      invariant r == Join(m, c) && changed == (r != m)
      decreases rest
    {
      var k :| k in rest;
      JoinMore(m, c, k, remote[k]);
      MovedStays(m, c, c[k := remote[k]]);
      r, changed := Advance(r, k, remote[k], changed);
      c, rest := c[k := remote[k]], rest - {k};
    }
    assert c == remote;
  }

  // ---- histories ---------------------------------------------------------------------------

  /** How a replica came to its state: deliveries of operations and merges with other replicas. */
  datatype History<E> =
    | Fresh
    | Deliver(before: History<E>, event: E)
    | Merge(left: History<E>, right: History<E>)

  /** The operations that took part in a history. */
  function Seen<E>(h: History<E>): set<E> {
    match h
    case Fresh => {}
    case Deliver(before, e) => Seen(before) + {e}
    case Merge(left, right) => Seen(left) + Seen(right)
  }
}
