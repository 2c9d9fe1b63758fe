/**
 The shape of a skip list.

 `order` lists the live slots by ascending key and `lev` their tower heights. Every link
 of every level is determined by the two (`First`). Insertion and removal at a position
 are relations (`Ins`, `Rem`) between a sequence and the changed one.
 */
module Towers {
  import opened Base

  type Link = Option<nat>

  /** `t` is `s` with `x` inserted at position `k`. */
  ghost predicate Ins<T>(s: seq<T>, k: nat, x: T, t: seq<T>) {
    && k <= |s| && |t| == |s| + 1 && t[k] == x
    && (forall i :: 0 <= i < k ==> t[i] == s[i])
    && (forall i :: k < i < |t| ==> t[i] == s[i - 1])
  }

  /** `t` is `s` without position `k`. */
  ghost predicate Rem<T>(s: seq<T>, k: nat, t: seq<T>) {
    && k < |s| && |t| == |s| - 1
    && (forall i :: 0 <= i < k ==> t[i] == s[i])
    && (forall i :: k <= i < |t| ==> t[i] == s[i + 1])
  }

  lemma Insert<T>(s: seq<T>, k: nat, x: T) returns (t: seq<T>)
    requires k <= |s|
    ensures Ins(s, k, x, t)
  {
    t := s[..k] + [x] + s[k..];
  }

  lemma Remove<T>(s: seq<T>, k: nat) returns (t: seq<T>)
    requires k < |s|
    ensures Rem(s, k, t)
  {
    t := s[..k] + s[k + 1..];
  }

  /** The first slot at or after position `from` whose tower is higher than `l`. */
  ghost function First(order: seq<nat>, lev: seq<nat>, from: nat, l: nat): Link
    requires |order| == |lev| && from <= |order|
    decreases |order| - from
  {
    if from == |order| then None
    else if lev[from] > l then Some(order[from])
    else First(order, lev, from + 1, l)
  }

  /** No tower in positions [a, b) is higher than `l`. */
  ghost predicate Gap(lev: seq<nat>, a: nat, b: nat, l: nat) {
    forall j :: a <= j < b && j < |lev| ==> lev[j] <= l
  }

  /** `p` is the last position before `k` with a tower above `l`; `u` is its slot. */
  ghost predicate PredAt(order: seq<nat>, lev: seq<nat>, k: nat, l: nat, u: Link, p: int)
    requires |order| == |lev| && k <= |order|
  {
    && -1 <= p < k
    && Gap(lev, p + 1, k, l)
    && (p == -1 <==> u == None)
    && (p >= 0 ==> lev[p] > l && u == Some(order[p]))
  }

  ghost predicate IsPred(order: seq<nat>, lev: seq<nat>, k: nat, l: nat, u: Link)
    requires |order| == |lev| && k <= |order|
  {
    exists p :: PredAt(order, lev, k, l, u, p)
  }

  /** `order` names distinct slots below `n`, with one height each. */
  ghost predicate Slots(n: nat, order: seq<nat>, lev: seq<nat>) {
    && |order| == |lev|
    && (forall i :: 0 <= i < |order| ==> order[i] < n)
    && (forall i, j :: 0 <= i < j < |order| ==> order[i] != order[j])
  }

  /** One level: from `head`, and from each tower above `l`, the link leads to the next such tower. */
  ghost predicate Linked(head: Link, row: seq<Link>, order: seq<nat>, lev: seq<nat>, l: nat)
    requires Slots(|row|, order, lev)
  {
    && head == First(order, lev, 0, l)
    && forall i :: 0 <= i < |order| && lev[i] > l ==> row[order[i]] == First(order, lev, i + 1, l)
  }

  function SetHead(head: Link, u: Link, v: Link): Link { if u.None? then v else head }

  function SetRow(row: seq<Link>, u: Link, v: Link): seq<Link>
    requires u.Some? ==> u.value < |row|
  {
    if u.None? then row else row[u.value := v]
  }

  lemma {:induction false} FirstSkip(order: seq<nat>, lev: seq<nat>, a: nat, b: nat, l: nat)
    requires |order| == |lev| && a <= b <= |order|
    requires Gap(lev, a, b, l)
    ensures First(order, lev, a, l) == First(order, lev, b, l)
    decreases b - a
  {
    if a < b {
      FirstSkip(order, lev, a + 1, b, l);
    }
  }

  /** A level has no slot from a position on exactly when no later tower reaches it. */
  lemma {:induction false} FirstNone(order: seq<nat>, lev: seq<nat>, a: nat, l: nat)
    requires |order| == |lev| && a <= |order|
    ensures First(order, lev, a, l) == None <==> Gap(lev, a, |lev|, l)
    decreases |order| - a
  {
    if a < |order| && lev[a] <= l {
      FirstNone(order, lev, a + 1, l);
    }
  }

  /** The slot found lies at some position; everything skipped is low. */
  lemma {:induction false} FirstFound(order: seq<nat>, lev: seq<nat>, a: nat, l: nat) returns (j: nat)
    requires |order| == |lev| && a <= |order|
    requires First(order, lev, a, l) != None
    ensures a <= j < |order| && lev[j] > l && Gap(lev, a, j, l)
    ensures First(order, lev, a, l) == Some(order[j])
    decreases |order| - a
  {
    if lev[a] > l {
      j := a;
    } else {
      j := FirstFound(order, lev, a + 1, l);
    }
  }

  /** How a level changes when slot `x` of height `h` enters at position `k`. */
  lemma {:induction false} FirstInsert(order: seq<nat>, lev: seq<nat>, k: nat, x: nat, h: nat,
                                       order': seq<nat>, lev': seq<nat>, from: nat, l: nat)
    requires |order| == |lev| && Ins(order, k, x, order') && Ins(lev, k, h, lev') && from <= |order'|
    ensures var f := First(order', lev', from, l);
            && (from > k ==> f == First(order, lev, from - 1, l))
            && (from <= k ==> f == if Gap(lev, from, k, l) && h > l then Some(x) else First(order, lev, from, l))
    decreases |order'| - from
  {
    if from < |order'| {
      FirstInsert(order, lev, k, x, h, order', lev', from + 1, l);
    }
  }

  /** How a level changes when the slot at position `k` leaves; `p` is its predecessor's position. */
  lemma {:induction false} FirstRemove(order: seq<nat>, lev: seq<nat>, k: nat, order': seq<nat>, lev': seq<nat>, from: nat, l: nat)
    requires |order| == |lev| && Rem(order, k, order') && Rem(lev, k, lev') && from <= |order'|
    ensures var f := First(order', lev', from, l);
            && (from >= k ==> f == First(order, lev, from + 1, l))
            && (from <= k ==> f == if Gap(lev, from, k, l) then First(order, lev, k + 1, l) else First(order, lev, from, l))
    decreases |order'| - from
  {
    if from < |order'| {
      FirstRemove(order, lev, k, order', lev', from + 1, l);
    }
  }

  /** The predecessor of position `k` leads to the first slot at or after `k`. */
  lemma AfterPred(head: Link, row: seq<Link>, order: seq<nat>, lev: seq<nat>, k: nat, l: nat, u: Link)
    requires Slots(|row|, order, lev) && k <= |order|
    requires Linked(head, row, order, lev, l) && IsPred(order, lev, k, l, u)
    ensures u.Some? ==> u.value < |row| && u.value in order && (k < |order| ==> u.value != order[k])
    ensures First(order, lev, k, l) == if u.None? then head else row[u.value]
  {
    var p :| PredAt(order, lev, k, l, u, p);
    FirstSkip(order, lev, p + 1, k, l);
  }

  lemma SlotsInserted(n: nat, order: seq<nat>, lev: seq<nat>, k: nat, x: nat, h: nat, order': seq<nat>, lev': seq<nat>)
    requires Slots(n, order, lev) && Ins(order, k, x, order') && Ins(lev, k, h, lev') && x < n && x !in order
    ensures Slots(n, order', lev')
  {
  }

  lemma SlotsRemoved(n: nat, order: seq<nat>, lev: seq<nat>, k: nat, order': seq<nat>, lev': seq<nat>)
    requires Slots(n, order, lev) && Rem(order, k, order') && Rem(lev, k, lev')
    ensures Slots(n, order', lev') && order[k] !in order'
  {
  }

  /** Splicing slot `x` of height `h` at position `k` into level `l`; a low tower changes nothing. */
  lemma SpliceLevel(head: Link, row: seq<Link>, order: seq<nat>, lev: seq<nat>, k: nat, x: nat, h: nat,
                    order': seq<nat>, lev': seq<nat>, l: nat, u: Link)
    requires Slots(|row|, order, lev) && Slots(|row|, order', lev') && x < |row| && x !in order
    requires Ins(order, k, x, order') && Ins(lev, k, h, lev')
    requires Linked(head, row, order, lev, l)
    requires h > l ==> IsPred(order, lev, k, l, u) && (u.Some? ==> u.value < |row|)
    ensures h <= l ==> Linked(head, row, order', lev', l)
    ensures h > l ==> Linked(SetHead(head, u, Some(x)), SetRow(row[x := First(order, lev, k, l)], u, Some(x)), order', lev', l)
  {
    var row' := if h > l then SetRow(row[x := First(order, lev, k, l)], u, Some(x)) else row;
    var p: int := -1;
    if h > l { p :| PredAt(order, lev, k, l, u, p); }
    FirstInsert(order, lev, k, x, h, order', lev', 0, l);
    forall i | 0 <= i < |order'| && lev'[i] > l ensures row'[order'[i]] == First(order', lev', i + 1, l) {
      SpliceAt(row, order, lev, k, x, h, order', lev', l, u, p, i);
    }
  }

  lemma SpliceAt(row: seq<Link>, order: seq<nat>, lev: seq<nat>, k: nat, x: nat, h: nat, order': seq<nat>, lev': seq<nat>,
                 l: nat, u: Link, p: int, i: nat)
    requires Slots(|row|, order, lev) && x < |row| && x !in order && i < |order'| && order'[i] < |row|
    requires Ins(order, k, x, order') && Ins(lev, k, h, lev') && lev'[i] > l
    requires h > l ==> PredAt(order, lev, k, l, u, p)
    requires i != k ==> var j := if i < k then i else i - 1; row[order[j]] == First(order, lev, j + 1, l)
    ensures h <= l ==> row[order'[i]] == First(order', lev', i + 1, l)
    ensures h > l ==> SetRow(row[x := First(order, lev, k, l)], u, Some(x))[order'[i]] == First(order', lev', i + 1, l)
  {
    FirstInsert(order, lev, k, x, h, order', lev', i + 1, l);
    if i != k {
      var j := if i < k then i else i - 1;
      assert order'[i] == order[j] && lev'[i] == lev[j];
      assert h > l && i < p ==> !Gap(lev, i + 1, k, l);
    }
  }

  /** Taking the slot at position `k` out of level `l`. */
  lemma BypassLevel(head: Link, row: seq<Link>, order: seq<nat>, lev: seq<nat>, k: nat, order': seq<nat>, lev': seq<nat>, l: nat, u: Link)
    requires Slots(|row|, order, lev) && Slots(|row|, order', lev')
    requires Rem(order, k, order') && Rem(lev, k, lev')
    requires Linked(head, row, order, lev, l)
    requires lev[k] > l ==> IsPred(order, lev, k, l, u) && (u.Some? ==> u.value < |row|)
    ensures lev[k] <= l ==> Linked(head, row, order', lev', l)
    ensures lev[k] > l ==> Linked(SetHead(head, u, row[order[k]]), SetRow(row, u, row[order[k]]), order', lev', l)
  {
    var row' := if lev[k] > l then SetRow(row, u, row[order[k]]) else row;
    var p: int := -1;
    if lev[k] > l { p :| PredAt(order, lev, k, l, u, p); }
    RemovedFirst(order, lev, k, order', lev', 0, l, p);
    forall i | 0 <= i < |order'| && lev'[i] > l ensures row'[order'[i]] == First(order', lev', i + 1, l) {
      BypassAt(row, order, lev, k, order', lev', l, u, p, i);
    }
  }

  lemma BypassAt(row: seq<Link>, order: seq<nat>, lev: seq<nat>, k: nat, order': seq<nat>, lev': seq<nat>, l: nat, u: Link, p: int, i: nat)
    requires Slots(|row|, order, lev) && Rem(order, k, order') && Rem(lev, k, lev') && i < |order'| && lev'[i] > l
    requires lev[k] > l ==> PredAt(order, lev, k, l, u, p) && row[order[k]] == First(order, lev, k + 1, l)
    requires var j := if i < k then i else i + 1; row[order[j]] == First(order, lev, j + 1, l)
    ensures order'[i] < |row|
    ensures lev[k] <= l ==> row[order'[i]] == First(order', lev', i + 1, l)
    ensures lev[k] > l ==> SetRow(row, u, row[order[k]])[order'[i]] == First(order', lev', i + 1, l)
  {
    RemovedFirst(order, lev, k, order', lev', i + 1, l, p);
    var j := if i < k then i else i + 1;
    assert order'[i] == order[j] && lev'[i] == lev[j];
    assert lev[k] > l && p >= 0 && j != p ==> order[p] != order[j];
  }

  lemma RemovedFirst(order: seq<nat>, lev: seq<nat>, k: nat, order': seq<nat>, lev': seq<nat>, from: nat, l: nat, p: int)
    requires |order| == |lev| && Rem(order, k, order') && Rem(lev, k, lev') && from <= |order'|
    requires lev[k] > l ==> -1 <= p < k && Gap(lev, p + 1, k, l) && (p >= 0 ==> lev[p] > l)
    ensures var f := First(order', lev', from, l);
            && (from > k ==> f == First(order, lev, from + 1, l))
            && (from <= k && lev[k] <= l ==> f == First(order, lev, from, l))
            && (from <= k && lev[k] > l ==> f == First(order, lev, if from <= p then from else k + 1, l))
  {
    FirstRemove(order, lev, k, order', lev', from, l);
    if from <= k && Gap(lev, from, k, l) && lev[k] <= l {
      FirstSkip(order, lev, from, k + 1, l);
    }
  }

  /** Position `k` becomes the predecessor of `k + 1` on the levels its tower reaches. */
  lemma PredStep(order: seq<nat>, lev: seq<nat>, k: nat, l: nat, u: Link)
    requires |order| == |lev| && k < |order|
    requires IsPred(order, lev, k, l, u)
    ensures IsPred(order, lev, k + 1, l, if lev[k] > l then Some(order[k]) else u)
  {
    var p :| PredAt(order, lev, k, l, u, p);
    assert PredAt(order, lev, k + 1, l, if lev[k] > l then Some(order[k]) else u, if lev[k] > l then k else p);
  }

  /** Inserting at or removing from position `k` on leaves the predecessors of `k` alone. */
  lemma PredKept(order: seq<nat>, lev: seq<nat>, order': seq<nat>, lev': seq<nat>, k: nat, l: nat, u: Link)
    requires |order| == |lev| && k <= |order| && |order'| == |lev'| && k <= |order'|
    requires forall i :: 0 <= i < k ==> order[i] == order'[i] && lev[i] == lev'[i]
    requires IsPred(order, lev, k, l, u)
    ensures IsPred(order', lev', k, l, u)
  {
    var p :| PredAt(order, lev, k, l, u, p);
    assert PredAt(order', lev', k, l, u, p);
  }

  /** On the bottom level the predecessor is the preceding position. */
  lemma BottomPred(order: seq<nat>, lev: seq<nat>, k: nat, u: Link)
    requires |order| == |lev| && k <= |order| && IsPred(order, lev, k, 0, u)
    requires forall i :: 0 <= i < |lev| ==> 1 <= lev[i]
    ensures u == if k == 0 then None else Some(order[k - 1])
  {
    var p :| PredAt(order, lev, k, 0, u, p);
    if k > 0 {
      assert lev[k - 1] >= 1;
    }
  }
}

/** The list as a sorted sequence of items, and as a map. */
module Bindings {
  import opened Towers

  datatype Item<+V> = Item(key: int, value: V)

  ghost predicate Ascending<V>(s: seq<Item<V>>) {
    forall i, j :: 0 <= i < j < |s| ==> s[i].key < s[j].key
  }

  /** The items are bindings of `m`, and as many as `m` has. */
  ghost predicate Binds<V>(s: seq<Item<V>>, m: map<int, V>) {
    Ascending(s) && |m| == |s| && forall i :: 0 <= i < |s| ==> s[i].key in m && m[s[i].key] == s[i].value
  }

  /** So every binding is an item. */
  lemma {:induction false} FindKey<V>(s: seq<Item<V>>, m: map<int, V>, q: int) returns (i: nat)
    requires Binds(s, m) && q in m
    ensures i < |s| && s[i].key == q
  {
    if s == [] {
      assert false;
    } else {
      var n := |s| - 1;
      if s[n].key == q {
        i := n;
      } else {
        assert m == (m - {s[n].key})[s[n].key := s[n].value];
        i := FindKey(s[..n], m - {s[n].key}, q);
      }
    }
  }

  /** `k` is the first position whose key is at least `key`. */
  ghost predicate LowerBound<V>(s: seq<Item<V>>, key: int, k: nat) {
    && k <= |s|
    && (forall i :: 0 <= i < k ==> s[i].key < key)
    && (forall i :: k <= i < |s| ==> s[i].key >= key)
  }

  lemma Locate<V>(s: seq<Item<V>>, key: int) returns (k: nat)
    requires Ascending(s)
    ensures LowerBound(s, key, k)
  {
    k := 0;
    while k < |s| && s[k].key < key
      invariant k <= |s|
      invariant forall i :: 0 <= i < k ==> s[i].key < key
    {
      k := k + 1;
    }
  }

  lemma BoundInMap<V>(s: seq<Item<V>>, m: map<int, V>, key: int, k: nat)
    requires Binds(s, m) && LowerBound(s, key, k)
    ensures key in m <==> k < |s| && s[k].key == key
  {
    if key in m {
      var i := FindKey(s, m, key);
      assert k <= i && s[k].key >= key;
    }
  }

  lemma AscendingInserted<V>(s: seq<Item<V>>, k: nat, x: Item<V>, t: seq<Item<V>>)
    requires Ascending(s) && LowerBound(s, x.key, k) && (k < |s| ==> s[k].key != x.key) && Ins(s, k, x, t)
    ensures Ascending(t) && LowerBound(t, x.key, k)
  {
    assert k < |s| ==> s[k].key > x.key;
    forall i | k < i < |t| ensures t[i].key > x.key {
      assert t[i] == s[i - 1] && s[i - 1].key >= x.key;
    }
  }

  lemma BindsInserted<V>(s: seq<Item<V>>, m: map<int, V>, k: nat, x: Item<V>, t: seq<Item<V>>)
    requires Binds(s, m) && LowerBound(s, x.key, k) && x.key !in m && Ins(s, k, x, t)
    ensures Binds(t, m[x.key := x.value]) && LowerBound(t, x.key, k)
  {
    BoundInMap(s, m, x.key, k);
    AscendingInserted(s, k, x, t);
    var m' := m[x.key := x.value];
    forall i | 0 <= i < |t| ensures t[i].key in m' && m'[t[i].key] == t[i].value {
      assert i > k ==> t[i] == s[i - 1];
    }
  }

  lemma BindsRemoved<V>(s: seq<Item<V>>, m: map<int, V>, k: nat, t: seq<Item<V>>)
    requires Binds(s, m) && Rem(s, k, t)
    ensures Binds(t, m - {s[k].key}) && LowerBound(t, s[k].key, k)
  {
    assert m == (m - {s[k].key})[s[k].key := s[k].value];
    forall i | 0 <= i < |t| ensures t[i] == s[if i < k then i else i + 1] {}
    forall i, j | 0 <= i < j < |t| ensures t[i].key < t[j].key {
      var i', j' := if i < k then i else i + 1, if j < k then j else j + 1;
      assert t[i] == s[i'] && t[j] == s[j'];
    }
  }

  lemma BindsUpdated<V>(s: seq<Item<V>>, m: map<int, V>, k: nat, value: V, t: seq<Item<V>>)
    requires Binds(s, m) && k < |s| && t == s[k := Item(s[k].key, value)]
    ensures Binds(t, m[s[k].key := value])
  {
    var m' := m[s[k].key := value];
    assert m'.Keys == m.Keys && |m'.Keys| == |m.Keys|;
    assert forall i :: 0 <= i < |t| ==> t[i].key == s[i].key;
  }
}

/** The links held in an arena of nodes. */
module Arenas {
  import opened Base
  import opened Towers
  import opened Bindings

  const MAX_LEVEL: nat := 16

  type Links = s: seq<Link> | |s| == MAX_LEVEL witness seq(MAX_LEVEL, _ => None)

  const NO_LINKS: Links := seq(MAX_LEVEL, _ => None)

  datatype Node<+V> = Node(key: int, value: Option<V>, next: Links, prev: Link, level: nat)

  /** The level-`l` links of all slots. */
  ghost function Row<V>(arena: seq<Node<V>>, l: nat): (row: seq<Link>)
    requires l < MAX_LEVEL
    ensures |row| == |arena|
  {
    seq(|arena|, i requires 0 <= i < |arena| => arena[i].next[l])
  }

  function SetNext<V>(arena: seq<Node<V>>, u: Link, l: nat, v: Link): seq<Node<V>>
    requires l < MAX_LEVEL && (u.Some? ==> u.value < |arena|)
  {
    if u.None? then arena else arena[u.value := arena[u.value].(next := arena[u.value].next[l := v])]
  }

  function SetHeads(heads: Links, u: Link, l: nat, v: Link): Links
    requires l < MAX_LEVEL
  {
    if u.None? then heads[l := v] else heads
  }

  lemma RowSetNext<V>(arena: seq<Node<V>>, u: Link, l: nat, v: Link, m: nat)
    requires l < MAX_LEVEL && m < MAX_LEVEL && (u.Some? ==> u.value < |arena|)
    ensures Row(SetNext(arena, u, l, v), m) == if m == l then SetRow(Row(arena, l), u, v) else Row(arena, m)
  {
  }

  lemma RowsSpliced<V>(arena: seq<Node<V>>, x: nat, u: Link, l: nat, v: Link)
    requires l < MAX_LEVEL && x < |arena| && (u.Some? ==> u.value < |arena|)
    ensures var a := SetNext(SetNext(arena, Some(x), l, v), u, l, Some(x));
            && SameNodes(a, arena)
            && forall m :: 0 <= m < MAX_LEVEL ==>
                 Row(a, m) == if m == l then SetRow(Row(arena, l)[x := v], u, Some(x)) else Row(arena, m)
  {
    var a1 := SetNext(arena, Some(x), l, v);
    forall m | 0 <= m < MAX_LEVEL
      ensures Row(SetNext(a1, u, l, Some(x)), m) == if m == l then SetRow(Row(arena, l)[x := v], u, Some(x)) else Row(arena, m)
    {
      RowSetNext(arena, Some(x), l, v, m);
      RowSetNext(a1, u, l, Some(x), m);
    }
  }

  /** Two arenas that differ in links at most. */
  ghost predicate SameNodes<V>(a: seq<Node<V>>, b: seq<Node<V>>) {
    && |a| == |b|
    && forall i :: 0 <= i < |a| ==> a[i].key == b[i].key && a[i].value == b[i].value && a[i].prev == b[i].prev && a[i].level == b[i].level
  }

  /** Each level in [a, b) links exactly the towers that reach it. */
  ghost predicate Levels<V>(arena: seq<Node<V>>, heads: Links, order: seq<nat>, lev: seq<nat>, a: nat, b: nat)
    requires b <= MAX_LEVEL
  {
    && Slots(|arena|, order, lev)
    && forall l :: a <= l < b ==> Linked(heads[l], Row(arena, l), order, lev, l)
  }

  /** Slot `order[i]` holds item `i`, its tower height and the link back to the slot before it. */
  ghost predicate Stored<V>(arena: seq<Node<V>>, order: seq<nat>, lev: seq<nat>, items: seq<Item<V>>) {
    && Slots(|arena|, order, lev) && |items| == |order|
    && forall i :: 0 <= i < |order| ==> StoredAt(arena[order[i]], lev[i], items[i], Before(order, i))
  }

  ghost predicate StoredAt<V>(n: Node<V>, h: nat, item: Item<V>, before: Link) {
    n.key == item.key && n.value == Some(item.value) && n.level == h && 1 <= h <= MAX_LEVEL && n.prev == before
  }

  ghost predicate Keyed<V>(arena: seq<Node<V>>, order: seq<nat>, lev: seq<nat>, items: seq<Item<V>>) {
    && Slots(|arena|, order, lev) && |items| == |order|
    && forall i :: 0 <= i < |order| ==> arena[order[i]].key == items[i].key && arena[order[i]].level == lev[i] && 1 <= lev[i] <= MAX_LEVEL
  }

  lemma StoredKeyed<V>(arena: seq<Node<V>>, order: seq<nat>, lev: seq<nat>, items: seq<Item<V>>)
    requires Stored(arena, order, lev, items)
    ensures Keyed(arena, order, lev, items)
  {
    assert forall i :: 0 <= i < |order| ==> StoredAt(arena[order[i]], lev[i], items[i], Before(order, i));
  }

  ghost function Before(order: seq<nat>, i: nat): Link {
    if 0 < i <= |order| then Some(order[i - 1]) else None
  }

  /** `b` keeps the contents of slot `x` of `a`, with back link `back`. */
  ghost predicate Kept<V>(a: seq<Node<V>>, b: seq<Node<V>>, x: nat, back: Link) {
    && x < |a| && x < |b|
    && b[x].key == a[x].key && b[x].value == a[x].value && b[x].level == a[x].level && b[x].prev == back
  }

  /** Every slot is either live or free, never both. */
  ghost predicate Pool(n: nat, order: seq<nat>, free: seq<nat>) {
    && |order| + |free| == n
    && (forall i :: 0 <= i < |free| ==> free[i] < n && free[i] !in order)
    && forall i, j :: 0 <= i < j < |free| ==> free[i] != free[j]
  }

  /** Every slot but `x` is either live or free. */
  ghost predicate PoolPlus(n: nat, order: seq<nat>, free: seq<nat>, x: nat) {
    && |order| + 1 + |free| == n
    && (forall i :: 0 <= i < |free| ==> free[i] < n && free[i] !in order && free[i] != x)
    && forall i, j :: 0 <= i < j < |free| ==> free[i] != free[j]
  }

  /** `height` is the height of the tallest tower. */
  ghost predicate HeightOk(heads: Links, height: nat) {
    && height <= MAX_LEVEL
    && (forall l :: height <= l < MAX_LEVEL ==> heads[l] == None)
    && (height > 0 ==> heads[height - 1] != None)
  }

  /** `update` holds the predecessors of position `k` on every level. */
  ghost predicate Preds(order: seq<nat>, lev: seq<nat>, k: nat, update: Links) {
    |order| == |lev| && k <= |order| && forall l :: 0 <= l < MAX_LEVEL ==> IsPred(order, lev, k, l, update[l])
  }

  /** One step of the loop of `insert_new` over levels. */
  lemma SpliceStep<V>(arena: seq<Node<V>>, heads: Links, order: seq<nat>, lev: seq<nat>, k: nat, x: nat, h: nat,
                      order': seq<nat>, lev': seq<nat>, l: nat, u: Link)
    requires x < |arena| && x !in order && l < h <= MAX_LEVEL && Ins(order, k, x, order') && Ins(lev, k, h, lev')
    requires Levels(arena, heads, order, lev, l, MAX_LEVEL)
    requires Levels(arena, heads, order', lev', 0, l)
    requires IsPred(order, lev, k, l, u)
    ensures u.Some? ==> u.value < |arena| && u.value != x
    ensures var v := if u.None? then heads[l] else arena[u.value].next[l];
            var a := SetNext(SetNext(arena, Some(x), l, v), u, l, Some(x));
            var hs := SetHeads(heads, u, l, Some(x));
            && SameNodes(a, arena)
            && Levels(a, hs, order, lev, l + 1, MAX_LEVEL)
            && Levels(a, hs, order', lev', 0, l + 1)
  {
    AfterPred(heads[l], Row(arena, l), order, lev, k, l, u);
    var v := if u.None? then heads[l] else arena[u.value].next[l];
    RowsSpliced(arena, x, u, l, v);
    SpliceLevel(heads[l], Row(arena, l), order, lev, k, x, h, order', lev', l, u);
  }

  /** One step of the loop of `remove_found` over levels. */
  lemma BypassStep<V>(arena: seq<Node<V>>, heads: Links, order: seq<nat>, lev: seq<nat>, k: nat,
                      order': seq<nat>, lev': seq<nat>, l: nat, u: Link)
    requires Rem(order, k, order') && Rem(lev, k, lev') && l < MAX_LEVEL && lev[k] > l
    requires Levels(arena, heads, order, lev, l, MAX_LEVEL)
    requires Levels(arena, heads, order', lev', 0, l)
    requires IsPred(order, lev, k, l, u)
    ensures u.Some? ==> u.value < |arena| && u.value != order[k]
    ensures var v := arena[order[k]].next[l];
            var a := SetNext(arena, u, l, v);
            var hs := SetHeads(heads, u, l, v);
            && SameNodes(a, arena)
            && (forall m :: 0 <= m < MAX_LEVEL ==> a[order[k]].next[m] == arena[order[k]].next[m])
            && Levels(a, hs, order, lev, l + 1, MAX_LEVEL)
            && Levels(a, hs, order', lev', 0, l + 1)
  {
    AfterPred(heads[l], Row(arena, l), order, lev, k, l, u);
    var v := arena[order[k]].next[l];
    forall m | 0 <= m < MAX_LEVEL
      ensures Row(SetNext(arena, u, l, v), m) == if m == l then SetRow(Row(arena, l), u, v) else Row(arena, m)
    {
      RowSetNext(arena, u, l, v, m);
    }
    BypassLevel(heads[l], Row(arena, l), order, lev, k, order', lev', l, u);
  }

  lemma AboveHeight<V>(arena: seq<Node<V>>, heads: Links, order: seq<nat>, lev: seq<nat>, height: nat, k: nat)
    requires Levels(arena, heads, order, lev, 0, MAX_LEVEL) && HeightOk(heads, height) && k <= |order|
    ensures forall l :: height <= l < MAX_LEVEL ==> IsPred(order, lev, k, l, None)
    ensures height == 0 ==> forall i :: 0 <= i < |lev| ==> lev[i] <= 0
  {
    forall l | height <= l < MAX_LEVEL ensures IsPred(order, lev, k, l, None) {
      assert Linked(heads[l], Row(arena, l), order, lev, l);
      FirstNone(order, lev, 0, l);
      assert PredAt(order, lev, k, l, None, -1);
    }
    if height == 0 {
      assert Linked(heads[0], Row(arena, 0), order, lev, 0);
      FirstNone(order, lev, 0, 0);
    }
  }

  /** Links of live slots are all that the levels depend on. */
  lemma LevelsKept<V>(a: seq<Node<V>>, b: seq<Node<V>>, heads: Links, order: seq<nat>, lev: seq<nat>)
    requires Levels(a, heads, order, lev, 0, MAX_LEVEL) && |a| <= |b|
    requires forall i :: 0 <= i < |order| ==> b[order[i]].next == a[order[i]].next
    ensures Levels(b, heads, order, lev, 0, MAX_LEVEL)
  {
    forall l | 0 <= l < MAX_LEVEL ensures Linked(heads[l], Row(b, l), order, lev, l) {
      assert Linked(heads[l], Row(a, l), order, lev, l);
    }
  }

  /** On the bottom level the links lead from each position to the next. */
  lemma BottomNext<V>(arena: seq<Node<V>>, heads: Links, order: seq<nat>, lev: seq<nat>, k: nat)
    requires Levels(arena, heads, order, lev, 0, MAX_LEVEL) && k < |order|
    requires forall i :: 0 <= i < |lev| ==> 1 <= lev[i]
    ensures arena[order[k]].next[0] == if k + 1 == |order| then None else Some(order[k + 1])
    ensures heads[0] == Some(order[0])
  {
    assert Linked(heads[0], Row(arena, 0), order, lev, 0);
    assert Row(arena, 0)[order[k]] == First(order, lev, k + 1, 0);
  }

  lemma StoredInserted<V>(a: seq<Node<V>>, b: seq<Node<V>>, order: seq<nat>, lev: seq<nat>, items: seq<Item<V>>,
                          k: nat, x: nat, h: nat, item: Item<V>, order': seq<nat>, lev': seq<nat>, items': seq<Item<V>>)
    requires Stored(a, order, lev, items) && |a| <= |b| && x < |b| && x !in order
    requires Ins(order, k, x, order') && Ins(lev, k, h, lev') && Ins(items, k, item, items')
    requires forall i :: 0 <= i < |order| ==> Kept(a, b, order[i], if i == k then Some(x) else a[order[i]].prev)
    requires StoredAt(b[x], h, item, Before(order, k))
    ensures Stored(b, order', lev', items')
  {
    SlotsInserted(|b|, order, lev, k, x, h, order', lev');
    forall i | 0 <= i < |order'| ensures StoredAt(b[order'[i]], lev'[i], items'[i], Before(order', i)) {
      BeforeInserted(order, k, x, order', i);
      if i != k {
        var j := if i < k then i else i - 1;
        assert order'[i] == order[j] && lev'[i] == lev[j] && items'[i] == items[j];
        StoredMoved(a, b, order[j], lev[j], items[j], Before(order, j), Before(order', i));
      }
    }
  }

  lemma StoredMoved<V>(a: seq<Node<V>>, b: seq<Node<V>>, x: nat, h: nat, item: Item<V>, before: Link, back: Link)
    requires Kept(a, b, x, back) && StoredAt(a[x], h, item, before)
    ensures StoredAt(b[x], h, item, back)
  {
  }

  lemma StoredKept<V>(a: seq<Node<V>>, b: seq<Node<V>>, order: seq<nat>, lev: seq<nat>, items: seq<Item<V>>)
    requires Stored(a, order, lev, items) && |a| <= |b|
    requires forall i :: 0 <= i < |order| ==> b[order[i]] == a[order[i]]
    ensures Stored(b, order, lev, items)
  {
    assert forall i :: 0 <= i < |order| ==> StoredAt(a[order[i]], lev[i], items[i], Before(order, i));
  }

  lemma BeforeInserted(order: seq<nat>, k: nat, x: nat, order': seq<nat>, i: nat)
    requires Ins(order, k, x, order') && i <= |order'|
    ensures Before(order', i) == if i <= k then Before(order, i) else if i == k + 1 then Some(x) else Before(order, i - 1)
  {
    assert i > 0 ==> order'[i - 1] == if i <= k then order[i - 1] else if i == k + 1 then x else order[i - 2];
  }

  lemma StoredRemoved<V>(a: seq<Node<V>>, b: seq<Node<V>>, order: seq<nat>, lev: seq<nat>, items: seq<Item<V>>,
                         k: nat, order': seq<nat>, lev': seq<nat>, items': seq<Item<V>>)
    requires Stored(a, order, lev, items) && |a| == |b|
    requires Rem(order, k, order') && Rem(lev, k, lev') && Rem(items, k, items')
    requires forall i :: 0 <= i < |order| && i != k ==> Kept(a, b, order[i], Before(order, if i == k + 1 then k else i))
    ensures Stored(b, order', lev', items')
  {
    SlotsRemoved(|a|, order, lev, k, order', lev');
    forall i | 0 <= i < |order'| ensures StoredAt(b[order'[i]], lev'[i], items'[i], Before(order', i)) {
      BeforeRemoved(order, k, order', i);
      var j := if i < k then i else i + 1;
      assert order'[i] == order[j] && lev'[i] == lev[j] && items'[i] == items[j];
      StoredMoved(a, b, order[j], lev[j], items[j], Before(order, j), Before(order', i));
    }
  }

  lemma BeforeRemoved(order: seq<nat>, k: nat, order': seq<nat>, i: nat)
    requires Rem(order, k, order') && i <= |order'|
    ensures Before(order', i) == if i <= k then Before(order, i) else Before(order, i + 1)
  {
    assert i > 0 ==> order'[i - 1] == if i <= k then order[i - 1] else order[i];
  }

  lemma PoolInserted(n: nat, order: seq<nat>, free: seq<nat>, k: nat, x: nat, order': seq<nat>)
    requires Ins(order, k, x, order') && x < n && PoolPlus(n, order, free, x)
    ensures Pool(n, order', free)
  {
    forall y | y in order' ensures y in order || y == x {
      var i :| 0 <= i < |order'| && order'[i] == y;
      assert i > k ==> order'[i] == order[i - 1];
    }
  }

  lemma PoolRemoved(n: nat, order: seq<nat>, lev: seq<nat>, free: seq<nat>, k: nat, order': seq<nat>)
    requires Pool(n, order, free) && Slots(n, order, lev) && Rem(order, k, order')
    ensures Pool(n, order', free + [order[k]])
  {
    forall y | y in order' ensures y in order && y != order[k] {
      var i :| 0 <= i < |order'| && order'[i] == y;
      var j := if i < k then i else i + 1;
      assert y == order[j];
    }
  }
}

/**
 The arena-backed skip list. The random level a node gets is chosen with `:|`, so that
 every contract holds for every choice. `model` is the map
 the list stands for and `items` its bindings in key order.
 */
module SkipLists {
  import opened Base
  import opened Towers
  import opened Bindings
  import opened Arenas

  datatype Capacity = Unbounded | Bounded(maxEntries: nat)

  datatype Error = StorageFull

  ghost predicate HasRoom<V>(m: map<int, V>, capacity: Capacity) {
    capacity.Bounded? ==> |m| < capacity.maxEntries
  }

  /** The map that repeated `put` produces, stopping at the first rejected key. */
  ghost function PutAll<V>(m: map<int, V>, input: seq<Item<V>>, capacity: Capacity): map<int, V>
    decreases |input|
  {
    if input == [] then m
    else if input[0].key in m || HasRoom(m, capacity) then PutAll(m[input[0].key := input[0].value], input[1..], capacity)
    else m
  }

  /** Repeated `put` rejects no key. */
  ghost predicate AllFit<V>(m: map<int, V>, input: seq<Item<V>>, capacity: Capacity)
    decreases |input|
  {
    input != [] ==>
      && (input[0].key in m || HasRoom(m, capacity))
      && AllFit(m[input[0].key := input[0].value], input[1..], capacity)
  }

  lemma PutAllStep<V>(m: map<int, V>, input: seq<Item<V>>, n: nat, capacity: Capacity)
    requires n < |input|
    ensures var fits, m' := input[n].key in m || HasRoom(m, capacity), m[input[n].key := input[n].value];
            && PutAll(m, input[n..], capacity) == (if fits then PutAll(m', input[n + 1..], capacity) else m)
            && AllFit(m, input[n..], capacity) == (fits && AllFit(m', input[n + 1..], capacity))
  {
    assert input[n..][0] == input[n] && input[n..][1..] == input[n + 1..];
  }

  /** The map that repeated `delete` produces. */
  ghost function DeleteAll<V>(m: map<int, V>, keys: seq<int>): map<int, V>
    decreases |keys|
  {
    if keys == [] then m else DeleteAll(m - {keys[0]}, keys[1..])
  }

  /** It is the map without exactly those keys. */
  lemma {:induction false} DeleteAllIs<V>(m: map<int, V>, keys: seq<int>)
    ensures DeleteAll(m, keys) == map k | k in m && k !in keys :: m[k]
    decreases |keys|
  {
    if keys != [] {
      DeleteAllIs(m - {keys[0]}, keys[1..]);
      forall k ensures k in keys <==> k == keys[0] || k in keys[1..] {
        assert keys == [keys[0]] + keys[1..];
      }
    }
  }

  /** What the last item with the key, if there is one, binds it to. */
  ghost function LastBound<V>(input: seq<Item<V>>, key: int): Option<V> {
    if input == [] then None
    else
      var n := |input| - 1;
      if input[n].key == key then Some(input[n].value) else LastBound(input[..n], key)
  }

  /** The map with the items of `input` laid over it. */
  ghost predicate Overlaid<V>(m: map<int, V>, input: seq<Item<V>>, r: map<int, V>) {
    forall k :: Lookup(r, k) == if LastBound(input, k).Some? then LastBound(input, k) else Lookup(m, k)
  }

  lemma {:induction false} LastBoundFirst<V>(item: Item<V>, rest: seq<Item<V>>, key: int)
    ensures LastBound([item] + rest, key) ==
            if LastBound(rest, key).Some? then LastBound(rest, key) else if item.key == key then Some(item.value) else None
  {
    var all := [item] + rest;
    if rest != [] {
      var n := |rest| - 1;
      assert all[..|all| - 1] == [item] + rest[..n];
      LastBoundFirst(item, rest[..n], key);
    } else {
      assert all[..0] == [];
    }
  }

  /** A prefix of the input goes in, later items over earlier ones: all of it, or up to the first new key a full list meets. */
  lemma {:induction false} PutAllIs<V>(m: map<int, V>, input: seq<Item<V>>, capacity: Capacity) returns (n: nat)
    ensures n <= |input| && Overlaid(m, input[..n], PutAll(m, input, capacity)) && (n == |input| <==> AllFit(m, input, capacity))
    ensures n < |input| ==> var r := PutAll(m, input, capacity);
              input[n].key !in r && capacity.Bounded? && |r| >= capacity.maxEntries
    decreases |input|
  {
    n := 0;
    if input != [] && (input[0].key in m || HasRoom(m, capacity)) {
      var m', rest := m[input[0].key := input[0].value], input[1..];
      var k := PutAllIs(m', rest, capacity);
      n := k + 1;
      assert input[..n] == [input[0]] + rest[..k];
      forall key ensures Lookup(PutAll(m, input, capacity), key) ==
                         if LastBound(input[..n], key).Some? then LastBound(input[..n], key) else Lookup(m, key) {
        LastBoundFirst(input[0], rest[..k], key);
      }
    } else {
      assert input[..0] == [];
    }
  }

  ghost predicate Reversed<T>(s: seq<T>, t: seq<T>) {
    |s| == |t| && forall i :: 0 <= i < |s| ==> t[i] == s[|s| - 1 - i]
  }

  /** Links, contents, back links, tail and free slots all describe the list `order`. */
  ghost predicate WellFormed<V>(arena: seq<Node<V>>, free: seq<nat>, heads: Links, tail: Link,
                                order: seq<nat>, lev: seq<nat>, items: seq<Item<V>>)
  {
    && Levels(arena, heads, order, lev, 0, MAX_LEVEL)
    && Stored(arena, order, lev, items)
    && tail == Before(order, |order|)
    && Pool(|arena|, order, free)
  }

  /** Walks one level right from `from` while keys are below `key`. */
  method SearchLevel<V>(arena: seq<Node<V>>, heads: Links, key: int, level: nat, from: Link,
                        ghost order: seq<nat>, ghost lev: seq<nat>, ghost items: seq<Item<V>>, ghost pos0: int, ghost k: nat)
    returns (previous: Link, found: Link, ghost pos: int)
    requires level < MAX_LEVEL && Keyed(arena, order, lev, items) && Ascending(items) && LowerBound(items, key, k)
    requires Linked(heads[level], Row(arena, level), order, lev, level)
    requires -1 <= pos0 < k && (pos0 == -1 <==> from == None)
    requires pos0 >= 0 ==> from == Some(order[pos0]) && lev[pos0] > level
    ensures PredAt(order, lev, k, level, previous, pos)
    ensures found.Some? ==> k < |order| && items[k].key == key && found == Some(order[k])
    ensures k < |order| && items[k].key == key && lev[k] > level ==> found.Some?
  {
    previous, found, pos := from, None, pos0;
    var current := if previous.Some? then arena[previous.value].next[level] else heads[level];
    while current.Some?
      invariant -1 <= pos < k && (pos == -1 <==> previous == None)
      invariant pos >= 0 ==> previous == Some(order[pos]) && lev[pos] > level
      invariant current == First(order, lev, pos + 1, level)
      decreases k - pos
    {
      var index := current.value;
      ghost var j := FirstFound(order, lev, pos + 1, level);
      if arena[index].key < key {
        previous, pos := Some(index), j;
        current := arena[index].next[level];
      } else {
        if arena[index].key == key {
          found := Some(index);
        }
        assert k <= j && Gap(lev, pos + 1, k, level);
        assert items[k].key >= key && (k < j ==> items[k].key < items[j].key);
        assert lev[k] > level ==> j == k;
        return;
      }
    }
    FirstNone(order, lev, pos + 1, level);
    assert k < |order| ==> lev[k] <= level;
  }

  /** Descends from the top level, remembering the predecessor on every level. */
  method Descend<V>(arena: seq<Node<V>>, heads: Links, height: nat, key: int,
                    ghost order: seq<nat>, ghost lev: seq<nat>, ghost items: seq<Item<V>>, ghost k: nat)
    returns (update: Links, found: Link)
    requires Levels(arena, heads, order, lev, 0, MAX_LEVEL) && Keyed(arena, order, lev, items)
    requires HeightOk(heads, height) && Ascending(items) && LowerBound(items, key, k)
    ensures Preds(order, lev, k, update)
    ensures found == if k < |order| && items[k].key == key then Some(order[k]) else None
  {
    update, found := NO_LINKS, None;
    var previous: Link := None;
    ghost var pos: int := -1;
    var level: nat := height;
    AboveHeight(arena, heads, order, lev, height, k);
    while level > 0
      invariant level <= height
      invariant -1 <= pos < k && (pos == -1 <==> previous == None)
      invariant pos >= 0 ==> previous == Some(order[pos]) && lev[pos] > level - 1
      invariant forall l :: level <= l < MAX_LEVEL ==> IsPred(order, lev, k, l, update[l])
      invariant found.Some? ==> k < |order| && items[k].key == key && found == Some(order[k])
      invariant level == 0 && height > 0 && k < |order| && items[k].key == key ==> found.Some?
    {
      level := level - 1;
      var hit: Link;
      previous, hit, pos := SearchLevel(arena, heads, key, level, previous, order, lev, items, pos, k);
      if hit.Some? {
        found := hit;
      }
      update := update[level := previous];
    }
  }

  /** Links slot `x` after its predecessors on the levels its tower reaches. */
  method LinkIn<V>(arena0: seq<Node<V>>, heads0: Links, x: nat, h: nat, update: Links,
                   ghost order: seq<nat>, ghost lev: seq<nat>, ghost k: nat, ghost order': seq<nat>, ghost lev': seq<nat>)
    returns (arena: seq<Node<V>>, heads: Links)
    requires 1 <= h <= MAX_LEVEL && x < |arena0| && x !in order && Ins(order, k, x, order') && Ins(lev, k, h, lev')
    requires Levels(arena0, heads0, order, lev, 0, MAX_LEVEL) && Preds(order, lev, k, update)
    ensures SameNodes(arena, arena0)
    ensures Levels(arena, heads, order', lev', 0, MAX_LEVEL)
    ensures forall l :: h <= l < MAX_LEVEL ==> heads[l] == heads0[l]
  {
    arena, heads := arena0, heads0;
    SlotsInserted(|arena|, order, lev, k, x, h, order', lev');
    var l := 0;
    while l < h
      invariant 0 <= l <= h && SameNodes(arena, arena0)
      invariant Levels(arena, heads, order, lev, l, MAX_LEVEL)
      invariant Levels(arena, heads, order', lev', 0, l)
      invariant forall m :: l <= m < MAX_LEVEL ==> heads[m] == heads0[m]
    {
      var u := update[l];
      SpliceStep(arena, heads, order, lev, k, x, h, order', lev', l, u);
      var next := if u.Some? then arena[u.value].next[l] else heads[l];
      arena := SetNext(arena, Some(x), l, next);
      arena := SetNext(arena, u, l, Some(x));
      heads := SetHeads(heads, u, l, Some(x));
      l := l + 1;
    }
    forall m | h <= m < MAX_LEVEL ensures Linked(heads[m], Row(arena, m), order', lev', m) {
      SpliceLevel(heads[m], Row(arena, m), order, lev, k, x, h, order', lev', m, None);
    }
  }

  /** Points the slot after `x`, or the cached tail, back at `x`. */
  method LinkBack<V>(arena0: seq<Node<V>>, heads: Links, tail0: Link, x: nat,
                     ghost order: seq<nat>, ghost lev: seq<nat>, ghost k: nat, ghost order': seq<nat>, ghost lev': seq<nat>)
    returns (arena: seq<Node<V>>, tail: Link)
    requires Slots(|arena0|, order, lev) && x < |arena0| && x !in order && Ins(order, k, x, order') && Levels(arena0, heads, order', lev', 0, MAX_LEVEL)
    requires forall i :: 0 <= i < |lev'| ==> 1 <= lev'[i]
    requires tail0 == Before(order, |order|)
    ensures |arena| == |arena0| && Levels(arena, heads, order', lev', 0, MAX_LEVEL)
    ensures tail == Before(order', |order'|)
    ensures Kept(arena0, arena, x, arena0[x].prev)
    ensures forall i :: 0 <= i < |order| ==> Kept(arena0, arena, order[i], if i == k then Some(x) else arena0[order[i]].prev)
  {
    arena, tail := arena0, tail0;
    BottomNext(arena, heads, order', lev', k);
    BeforeInserted(order, k, x, order', |order'|);
    assert k < |order| ==> order'[k + 1] == order[k];
    var next := arena[x].next[0];
    if next.Some? {
      arena := arena[next.value := arena[next.value].(prev := Some(x))];
    } else {
      tail := Some(x);
    }
    LevelsKept(arena0, arena, heads, order', lev');
  }

  /** Links slot `x` in at position `k`, forwards and backwards. */
  method Join<V>(arena0: seq<Node<V>>, heads0: Links, tail0: Link, x: nat, h: nat, update: Links,
                 ghost order: seq<nat>, ghost lev: seq<nat>, ghost k: nat, ghost order': seq<nat>, ghost lev': seq<nat>)
    returns (arena: seq<Node<V>>, heads: Links, tail: Link)
    requires 1 <= h <= MAX_LEVEL && x < |arena0| && x !in order && Ins(order, k, x, order') && Ins(lev, k, h, lev')
    requires Levels(arena0, heads0, order, lev, 0, MAX_LEVEL) && Preds(order, lev, k, update)
    requires (forall i :: 0 <= i < |lev| ==> 1 <= lev[i]) && tail0 == Before(order, |order|)
    ensures |arena| == |arena0| && Levels(arena, heads, order', lev', 0, MAX_LEVEL)
    ensures forall l :: h <= l < MAX_LEVEL ==> heads[l] == heads0[l]
    ensures Kept(arena0, arena, x, arena0[x].prev)
    ensures forall i :: 0 <= i < |order| ==> Kept(arena0, arena, order[i], if i == k then Some(x) else arena0[order[i]].prev)
    ensures tail == Before(order', |order'|)
  {
    arena, heads := LinkIn(arena0, heads0, x, h, update, order, lev, k, order', lev');
    arena, tail := LinkBack(arena, heads, tail0, x, order, lev, k, order', lev');
  }

  /** Takes a slot from the free list, or grows the arena when capacity allows. */
  method Alloc<V>(arena0: seq<Node<V>>, free0: seq<nat>, capacity: Capacity, node: Node<V>, ghost order: seq<nat>)
    returns (r: Result<nat, Error>, arena: seq<Node<V>>, free: seq<nat>)
    requires Pool(|arena0|, order, free0) && (forall i :: 0 <= i < |order| ==> order[i] < |arena0|)
    requires capacity.Bounded? ==> |arena0| <= capacity.maxEntries
    ensures r.Err? <==> capacity.Bounded? && |order| >= capacity.maxEntries
    ensures r.Err? ==> arena == arena0 && free == free0
    ensures r.Ok? ==> |arena0| <= |arena| && r.value < |arena| && r.value !in order
    ensures r.Ok? ==> forall i :: 0 <= i < |order| ==> arena[order[i]] == arena0[order[i]]
    ensures r.Ok? ==> arena[r.value] == node && PoolPlus(|arena|, order, free, r.value)
    ensures capacity.Bounded? ==> |arena| <= capacity.maxEntries
  {
    arena, free := arena0, free0;
    if |free| > 0 {
      var index := free[|free| - 1];
      return Ok(index), arena[index := node], free[..|free| - 1];
    }
    if capacity.Bounded? && |arena| >= capacity.maxEntries {
      return Err(StorageFull), arena, free;
    }
    return Ok(|arena|), arena + [node], free;
  }

  /** Allocates a node for position `k` and links it in. */
  method Enter<V>(arena0: seq<Node<V>>, free0: seq<nat>, heads0: Links, tail0: Link, capacity: Capacity,
                  key: int, value: V, level: nat, update: Links,
                  ghost order: seq<nat>, ghost lev: seq<nat>, ghost items: seq<Item<V>>, ghost k: nat)
    returns (r: Result<nat, Error>, arena: seq<Node<V>>, free: seq<nat>, heads: Links, tail: Link,
             ghost order': seq<nat>, ghost lev': seq<nat>, ghost items': seq<Item<V>>)
    requires WellFormed(arena0, free0, heads0, tail0, order, lev, items) && 1 <= level <= MAX_LEVEL && Preds(order, lev, k, update)
    requires capacity.Bounded? ==> |arena0| <= capacity.maxEntries
    ensures r.Err? <==> capacity.Bounded? && |order| >= capacity.maxEntries
    ensures r.Err? ==> arena == arena0 && free == free0 && heads == heads0 && tail == tail0
    ensures r.Ok? ==> WellFormed(arena, free, heads, tail, order', lev', items')
    ensures r.Ok? ==> Ins(order, k, r.value, order') && Ins(lev, k, level, lev') && Ins(items, k, Item(key, value), items')
    ensures forall l :: level <= l < MAX_LEVEL ==> heads[l] == heads0[l]
    ensures capacity.Bounded? ==> |arena| <= capacity.maxEntries
  {
    order', lev', items', heads, tail := order, lev, items, heads0, tail0;
    assert (forall i :: 0 <= i < |lev| ==> 1 <= lev[i]) && update[0] == Before(order, k) by {
      StoredKeyed(arena0, order, lev, items);
      BottomPred(order, lev, k, update[0]);
    }
    var node := Node(key, Some(value), NO_LINKS, update[0], level);
    r, arena, free := Alloc(arena0, free0, capacity, node, order);
    if r.Err? {
      return;
    }
    order' := Insert(order, k, r.value);
    lev' := Insert(lev, k, level);
    items' := Insert(items, k, Item(key, value));
    assert Stored(arena, order, lev, items) by {
      StoredKept(arena0, arena, order, lev, items);
    }
    assert Levels(arena, heads, order, lev, 0, MAX_LEVEL) by {
      LevelsKept(arena0, arena, heads, order, lev);
    }
    ghost var placed := arena;
    arena, heads, tail := Join(arena, heads, tail, r.value, level, update, order, lev, k, order', lev');
    assert Stored(arena, order', lev', items') by {
      StoredInserted(placed, arena, order, lev, items, k, r.value, level, Item(key, value), order', lev', items');
    }
    assert Pool(|arena|, order', free) by {
      PoolInserted(|arena|, order, free, k, r.value, order');
    }
  }

  /** Bypasses the slot at position `k` on the levels its tower reaches. */
  method LinkOut<V>(arena0: seq<Node<V>>, heads0: Links, x: nat, update: Links,
                    ghost order: seq<nat>, ghost lev: seq<nat>, ghost k: nat, ghost order': seq<nat>, ghost lev': seq<nat>)
    returns (arena: seq<Node<V>>, heads: Links)
    requires Rem(order, k, order') && Rem(lev, k, lev') && order[k] == x < |arena0| && arena0[x].level == lev[k] <= MAX_LEVEL
    requires Levels(arena0, heads0, order, lev, 0, MAX_LEVEL) && Preds(order, lev, k, update)
    ensures SameNodes(arena, arena0)
    ensures Levels(arena, heads, order', lev', 0, MAX_LEVEL)
  {
    arena, heads := arena0, heads0;
    SlotsRemoved(|arena|, order, lev, k, order', lev');
    var l := 0;
    while l < arena0[x].level
      invariant 0 <= l <= lev[k] && SameNodes(arena, arena0)
      invariant Levels(arena, heads, order, lev, l, MAX_LEVEL)
      invariant Levels(arena, heads, order', lev', 0, l)
    {
      var u := update[l];
      BypassStep(arena, heads, order, lev, k, order', lev', l, u);
      var successor := arena[x].next[l];
      arena := SetNext(arena, u, l, successor);
      heads := SetHeads(heads, u, l, successor);
      l := l + 1;
    }
    forall m | lev[k] <= m < MAX_LEVEL ensures Linked(heads[m], Row(arena, m), order', lev', m) {
      BypassLevel(heads[m], Row(arena, m), order, lev, k, order', lev', m, None);
    }
  }

  /** Points the slot at position `k + 1`, or the cached tail, back at `previous`. */
  method BackOut<V>(arena0: seq<Node<V>>, heads: Links, tail0: Link, previous: Link, next: Link,
                    ghost order: seq<nat>, ghost lev: seq<nat>, ghost k: nat, ghost order': seq<nat>, ghost lev': seq<nat>)
    returns (arena: seq<Node<V>>, tail: Link)
    requires Slots(|arena0|, order, lev) && Rem(order, k, order') && Levels(arena0, heads, order', lev', 0, MAX_LEVEL)
    requires previous == Before(order, k) && tail0 == Before(order, |order|)
    requires next == if k + 1 == |order| then None else Some(order[k + 1])
    ensures |arena| == |arena0| && Levels(arena, heads, order', lev', 0, MAX_LEVEL)
    ensures tail == Before(order', |order'|)
    ensures forall i :: 0 <= i < |order| && i != k ==>
              Kept(arena0, arena, order[i], if i == k + 1 then previous else arena0[order[i]].prev)
  {
    arena, tail := arena0, tail0;
    BeforeRemoved(order, k, order', |order'|);
    if next.Some? {
      arena := arena[next.value := arena[next.value].(prev := previous)];
    } else {
      tail := previous;
    }
    LevelsKept(arena0, arena, heads, order', lev');
  }

  /** Lowers the height to the tallest remaining tower. */
  method Shrink(heads: Links, height0: nat) returns (height: nat)
    requires height0 <= MAX_LEVEL && forall l :: height0 <= l < MAX_LEVEL ==> heads[l] == None
    ensures HeightOk(heads, height)
  {
    height := height0;
    while height > 0 && heads[height - 1].None?
      invariant height <= MAX_LEVEL && forall l :: height <= l < MAX_LEVEL ==> heads[l] == None
    {
      height := height - 1;
    }
  }

  /** Unlinks slot `x` at position `k` and returns it to the free list. */
  method Leave<V>(arena0: seq<Node<V>>, free0: seq<nat>, heads0: Links, tail0: Link, x: nat, update: Links,
                  ghost order: seq<nat>, ghost lev: seq<nat>, ghost items: seq<Item<V>>, ghost k: nat)
    returns (arena: seq<Node<V>>, free: seq<nat>, heads: Links, tail: Link,
             ghost order': seq<nat>, ghost lev': seq<nat>, ghost items': seq<Item<V>>)
    requires WellFormed(arena0, free0, heads0, tail0, order, lev, items)
    requires k < |order| && order[k] == x && Preds(order, lev, k, update)
    ensures WellFormed(arena, free, heads, tail, order', lev', items') && |arena| == |arena0|
    ensures Rem(order, k, order') && Rem(lev, k, lev') && Rem(items, k, items')
  {
    order' := Remove(order, k);
    lev' := Remove(lev, k);
    items' := Remove(items, k);
    assert StoredAt(arena0[order[k]], lev[k], items[k], Before(order, k));
    var previous, next := arena0[x].prev, arena0[x].next[0];
    assert next == if k + 1 == |order| then None else Some(order[k + 1]) by {
      StoredKeyed(arena0, order, lev, items);
      BottomNext(arena0, heads0, order, lev, k);
    }
    arena, heads := LinkOut(arena0, heads0, x, update, order, lev, k, order', lev');
    ghost var bypassed := arena;
    arena, tail := BackOut(arena, heads, tail0, previous, next, order, lev, k, order', lev');
    ghost var linked := arena;
    arena := arena[x := arena[x].(next := NO_LINKS, prev := None, value := None)];
    free := free0 + [x];
    SlotsRemoved(|arena|, order, lev, k, order', lev');
    assert Levels(arena, heads, order', lev', 0, MAX_LEVEL) by {
      LevelsKept(linked, arena, heads, order', lev');
    }
    assert Stored(arena, order', lev', items') by {
      LeaveKept(arena0, bypassed, linked, arena, order, lev, items, k);
      StoredRemoved(arena0, arena, order, lev, items, k, order', lev', items');
    }
    assert Pool(|arena|, order', free) by {
      PoolRemoved(|arena|, order, lev, free0, k, order');
    }
  }

  lemma LeaveKept<V>(a: seq<Node<V>>, b: seq<Node<V>>, c: seq<Node<V>>, d: seq<Node<V>>,
                     order: seq<nat>, lev: seq<nat>, items: seq<Item<V>>, k: nat)
    requires Stored(a, order, lev, items) && k < |order| && SameNodes(b, a) && |c| == |b|
    requires forall i :: 0 <= i < |order| && i != k ==>
               Kept(b, c, order[i], if i == k + 1 then Before(order, k) else b[order[i]].prev)
    requires d == c[order[k] := c[order[k]].(next := NO_LINKS, prev := None, value := None)]
    ensures forall i :: 0 <= i < |order| && i != k ==> Kept(a, d, order[i], Before(order, if i == k + 1 then k else i))
  {
    forall i | 0 <= i < |order| && i != k ensures Kept(a, d, order[i], Before(order, if i == k + 1 then k else i)) {
      assert StoredAt(a[order[i]], lev[i], items[i], Before(order, i));
      assert Kept(b, c, order[i], if i == k + 1 then Before(order, k) else b[order[i]].prev);
    }
  }

  /** Makes slot `x` the predecessor on every level below `level`. */
  method Mark(update0: Links, x: nat, level: nat) returns (update: Links)
    requires level <= MAX_LEVEL
    ensures forall l :: 0 <= l < MAX_LEVEL ==> update[l] == if l < level then Some(x) else update0[l]
  {
    update := update0;
    for l := 0 to level
      invariant forall m :: 0 <= m < MAX_LEVEL ==> update[m] == if m < l then Some(x) else update0[m]
    {
      update := update[l := Some(x)];
    }
  }

  ghost function SlotAt(order: seq<nat>, k: nat): Link {
    if k < |order| then Some(order[k]) else None
  }

  /** Moves a sweep from position `k0` to the first key at or above `key`, along the bottom level. */
  method SweepTo<V>(arena: seq<Node<V>>, heads: Links, update0: Links, current0: Link, key: int,
                    ghost order: seq<nat>, ghost lev: seq<nat>, ghost items: seq<Item<V>>, ghost k0: nat)
    returns (update: Links, current: Link, ghost k: nat)
    requires Levels(arena, heads, order, lev, 0, MAX_LEVEL) && Keyed(arena, order, lev, items) && Ascending(items)
    requires Preds(order, lev, k0, update0) && current0 == SlotAt(order, k0)
    requires forall i :: 0 <= i < k0 ==> items[i].key < key
    ensures LowerBound(items, key, k) && Preds(order, lev, k, update) && current == SlotAt(order, k)
  {
    update, current, k := update0, current0, k0;
    while current.Some? && arena[current.value].key < key
      invariant k <= |order| && current == SlotAt(order, k)
      invariant Preds(order, lev, k, update)
      invariant forall i :: 0 <= i < k ==> items[i].key < key
      decreases |order| - k
    {
      update, current := SweepOver(arena, heads, update, current.value, order, lev, items, k);
      k := k + 1;
    }
    SweepDone(arena, order, lev, items, key, k);
  }

  /** Moves a sweep over the slot at position `k`. */
  method SweepOver<V>(arena: seq<Node<V>>, heads: Links, update0: Links, x: nat,
                      ghost order: seq<nat>, ghost lev: seq<nat>, ghost items: seq<Item<V>>, ghost k: nat)
    returns (update: Links, current: Link)
    requires Levels(arena, heads, order, lev, 0, MAX_LEVEL) && Keyed(arena, order, lev, items)
    requires k < |order| && order[k] == x && Preds(order, lev, k, update0)
    ensures Preds(order, lev, k + 1, update) && current == SlotAt(order, k + 1)
  {
    BottomNext(arena, heads, order, lev, k);
    update := Mark(update0, x, arena[x].level);
    forall l | 0 <= l < MAX_LEVEL ensures IsPred(order, lev, k + 1, l, update[l]) {
      PredStep(order, lev, k, l, update0[l]);
    }
    current := arena[x].next[0];
  }

  lemma SweepDone<V>(arena: seq<Node<V>>, order: seq<nat>, lev: seq<nat>, items: seq<Item<V>>, key: int, k: nat)
    requires Keyed(arena, order, lev, items) && Ascending(items) && k <= |order|
    requires forall i :: 0 <= i < k ==> items[i].key < key
    requires k < |order| ==> arena[order[k]].key >= key
    ensures LowerBound(items, key, k)
  {
    assert k < |order| ==> items[k].key >= key;
  }

  lemma StoredUpdated<V>(a: seq<Node<V>>, heads: Links, order: seq<nat>, lev: seq<nat>, items: seq<Item<V>>, k: nat, value: V)
    requires Stored(a, order, lev, items) && Levels(a, heads, order, lev, 0, MAX_LEVEL) && k < |order|
    ensures var b := a[order[k] := a[order[k]].(value := Some(value))];
            Levels(b, heads, order, lev, 0, MAX_LEVEL) && Stored(b, order, lev, items[k := Item(items[k].key, value)])
  {
    var b, t := a[order[k] := a[order[k]].(value := Some(value))], items[k := Item(items[k].key, value)];
    LevelsKept(a, b, heads, order, lev);
    forall i | 0 <= i < |order| ensures StoredAt(b[order[i]], lev[i], t[i], Before(order, i)) {
      assert StoredAt(a[order[i]], lev[i], items[i], Before(order, i));
    }
  }

  lemma AscendingBound<V>(items: seq<Item<V>>, k: nat)
    requires Ascending(items) && k < |items|
    ensures LowerBound(items, items[k].key, k)
  {
  }

  /** The bottom level as a doubly linked list of items. */
  ghost predicate Chained<V>(arena: seq<Node<V>>, order: seq<nat>, items: seq<Item<V>>) {
    |items| == |order| && forall i :: 0 <= i < |order| ==> ChainedAt(arena, order, items, i)
  }

  ghost predicate ChainedAt<V>(arena: seq<Node<V>>, order: seq<nat>, items: seq<Item<V>>, i: nat) {
    && i < |order| && i < |items| && order[i] < |arena|
    && var n := arena[order[i]];
       n.key == items[i].key && n.value == Some(items[i].value) && n.next[0] == SlotAt(order, i + 1) && n.prev == Before(order, i)
  }

  lemma Chain<V>(arena: seq<Node<V>>, heads: Links, order: seq<nat>, lev: seq<nat>, items: seq<Item<V>>)
    requires Levels(arena, heads, order, lev, 0, MAX_LEVEL) && Stored(arena, order, lev, items)
    ensures Chained(arena, order, items)
  {
    StoredKeyed(arena, order, lev, items);
    forall i | 0 <= i < |order| ensures ChainedAt(arena, order, items, i) {
      assert StoredAt(arena[order[i]], lev[i], items[i], Before(order, i));
      BottomNext(arena, heads, order, lev, i);
    }
  }

  /** Collects items forwards from position `a` to the first key at or above `end`. */
  method Walk<V>(arena: seq<Node<V>>, from: Link, end: Option<int>, ghost order: seq<nat>, ghost items: seq<Item<V>>, ghost a: nat, ghost b: nat)
    returns (s: seq<Item<V>>)
    requires Chained(arena, order, items) && a <= |order| && b <= |order| && from == SlotAt(order, a)
    requires end.None? ==> b == |order|
    requires end.Some? ==> LowerBound(items, end.value, b)
    ensures s == if a <= b then items[a..b] else []
  {
    var current := from;
    s := [];
    ghost var k := a;
    assert k < |order| ==> ChainedAt(arena, order, items, k);
    while current.Some? && (end.Some? ==> arena[current.value].key < end.value)
      invariant a <= k <= |order| && current == SlotAt(order, k) && (k <= b || k == a)
      invariant s == items[a..k]
      invariant k < |order| ==> ChainedAt(arena, order, items, k)
      decreases |order| - k
    {
      s := s + [Item(arena[current.value].key, arena[current.value].value.value)];
      current := arena[current.value].next[0];
      k := k + 1;
      assert k < |order| ==> ChainedAt(arena, order, items, k);
    }
  }

  /** Collects items backwards from before position `b` while keys are at or above `start`. */
  method WalkBack<V>(arena: seq<Node<V>>, from: Link, start: Option<int>, ghost order: seq<nat>, ghost items: seq<Item<V>>, ghost a: nat, ghost b: nat)
    returns (s: seq<Item<V>>)
    requires Chained(arena, order, items) && a <= |order| && b <= |order| && from == Before(order, b)
    requires start.None? ==> a == 0
    requires start.Some? ==> LowerBound(items, start.value, a)
    ensures Reversed(if a <= b then items[a..b] else [], s)
  {
    var current := from;
    s := [];
    ghost var k := b;
    assert k > 0 ==> ChainedAt(arena, order, items, k - 1);
    while current.Some? && (start.Some? ==> arena[current.value].key >= start.value)
      invariant 0 <= k <= b && current == Before(order, k) && (a <= k || k == b)
      invariant Reversed(items[k..b], s)
      invariant k > 0 ==> ChainedAt(arena, order, items, k - 1)
      decreases k
    {
      s := s + [Item(arena[current.value].key, arena[current.value].value.value)];
      current := arena[current.value].prev;
      k := k - 1;
      assert k > 0 ==> ChainedAt(arena, order, items, k - 1);
    }
  }

  /** The slot before position `b`, found from the slot at `b` or, failing that, from the tail. */
  method LastBefore<V>(arena: seq<Node<V>>, tail: Link, after: Link, end: int, ghost order: seq<nat>, ghost items: seq<Item<V>>, ghost b: nat)
    returns (current: Link)
    requires Chained(arena, order, items) && LowerBound(items, end, b)
    requires after == SlotAt(order, b) && tail == Before(order, |order|)
    ensures current == Before(order, b)
  {
    assert b < |order| ==> ChainedAt(arena, order, items, b);
    assert order != [] ==> ChainedAt(arena, order, items, |order| - 1);
    current := if after.Some? then arena[after.value].prev else None;
    if current.None? && tail.Some? && arena[tail.value].key < end {
      current := tail;
    }
  }

  class SkipList<V> {
    const capacity: Capacity
    var arena: seq<Node<V>>
    var free: seq<nat>
    var heads: Links
    var tail: Link
    var height: nat
    var entries: nat
    ghost var order: seq<nat>
    ghost var lev: seq<nat>
    ghost var items: seq<Item<V>>
    ghost var model: map<int, V>

    ghost predicate Valid()
      reads this
    {
      && WellFormed(arena, free, heads, tail, order, lev, items)
      && HeightOk(heads, height)
      && Binds(items, model)
      && entries == |order|
      && (capacity.Bounded? ==> |arena| <= capacity.maxEntries)
    }

    constructor (capacity: Capacity)
      ensures Valid() && model == map[] && this.capacity == capacity
    {
      this.capacity := capacity;
      arena, free, heads, tail, height, entries := [], [], NO_LINKS, None, 0, 0;
      order, lev, items, model := [], [], [], map[];
    }

    /** Assigns every field. */
    method Become(arena': seq<Node<V>>, free': seq<nat>, heads': Links, tail': Link, height': nat, entries': nat,
                  ghost order': seq<nat>, ghost lev': seq<nat>, ghost items': seq<Item<V>>, ghost model': map<int, V>)
      modifies this
      ensures arena == arena' && free == free' && heads == heads' && tail == tail' && height == height' && entries == entries'
      ensures order == order' && lev == lev' && items == items' && model == model'
    {
      arena, free, heads, tail, height, entries := arena', free', heads', tail', height', entries';
      order, lev, items, model := order', lev', items', model';
    }

    method Search(key: int) returns (update: Links, found: Link, ghost k: nat)
      requires Valid()
      ensures LowerBound(items, key, k) && Preds(order, lev, k, update)
      ensures found == if k < |order| && items[k].key == key then Some(order[k]) else None
      ensures found.Some? <==> key in model
    {
      k := Locate(items, key);
      StoredKeyed(arena, order, lev, items);
      update, found := Descend(arena, heads, height, key, order, lev, items, k);
      BoundInMap(items, model, key, k);
    }

    /** Places a new entry at position `k`, or reports that capacity is reached and changes nothing. */
    method InsertNew(key: int, value: V, update: Links, ghost k: nat) returns (r: Result<nat, Error>)
      requires Valid() && key !in model && LowerBound(items, key, k) && Preds(order, lev, k, update)
      modifies this
      ensures Valid()
      ensures r.Err? <==> !HasRoom(old(model), capacity)
      ensures r.Err? ==> unchanged(this)
      ensures r.Ok? ==> model == old(model)[key := value]
      ensures r.Ok? ==> LowerBound(items, key, k) && Preds(order, lev, k, update)
      ensures r.Ok? ==> k < |order| && order[k] == r.value
    {
      var level: nat :| 1 <= level <= MAX_LEVEL;
      ghost var order', lev', items';
      var arena', free', heads', tail';
      r, arena', free', heads', tail', order', lev', items' :=
        Enter(arena, free, heads, tail, capacity, key, value, level, update, order, lev, items, k);
      if r.Err? {
        return;
      }
      var height' := if height < level then level else height;
      assert HeightOk(heads', height') by {
        HeightInserted(arena', heads', heads, order', lev', k, level, height);
      }
      assert Binds(items', model[key := value]) && LowerBound(items', key, k) by {
        BindsInserted(items, model, k, Item(key, value), items');
      }
      assert Preds(order', lev', k, update) by {
        forall l | 0 <= l < MAX_LEVEL ensures IsPred(order', lev', k, l, update[l]) {
          PredKept(order, lev, order', lev', k, l, update[l]);
        }
      }
      Become(arena', free', heads', tail', height', entries + 1, order', lev', items', model[key := value]);
    }

    /** Removes the entry at position `k`. */
    method RemoveFound(update: Links, index: nat, ghost k: nat)
      requires Valid() && k < |order| && order[k] == index && Preds(order, lev, k, update)
      modifies this
      ensures Valid()
      ensures model == old(model) - {old(items)[k].key}
      ensures Rem(old(order), k, order) && entries == old(entries) - 1
      ensures LowerBound(items, old(items)[k].key, k) && Preds(order, lev, k, update)
    {
      ghost var order', lev', items';
      var arena', free', heads', tail';
      arena', free', heads', tail', order', lev', items' :=
        Leave(arena, free, heads, tail, index, update, order, lev, items, k);
      assert forall l :: height <= l < MAX_LEVEL ==> heads'[l] == None by {
        HeightRemoved(arena, heads, arena', heads', order, lev, k, order', lev', height);
      }
      var height' := Shrink(heads', height);
      assert Binds(items', model - {items[k].key}) && LowerBound(items', items[k].key, k) by {
        BindsRemoved(items, model, k, items');
      }
      assert Preds(order', lev', k, update) by {
        forall l | 0 <= l < MAX_LEVEL ensures IsPred(order', lev', k, l, update[l]) {
          PredKept(order, lev, order', lev', k, l, update[l]);
        }
      }
      Become(arena', free', heads', tail', height', entries - 1, order', lev', items', model - {items[k].key});
    }

    /** Replaces the value of the entry at position `k`. */
    method Overwrite(index: nat, value: V, ghost k: nat)
      requires Valid() && k < |order| && order[k] == index
      modifies this
      ensures Valid()
      ensures order == old(order) && lev == old(lev) && items == old(items)[k := Item(old(items)[k].key, value)]
      ensures model == old(model)[old(items)[k].key := value]
      ensures LowerBound(items, old(items)[k].key, k)
    {
      StoredUpdated(arena, heads, order, lev, items, k, value);
      ghost var items' := items[k := Item(items[k].key, value)];
      BindsUpdated(items, model, k, value, items');
      AscendingBound(items', k);
      Become(arena[index := arena[index].(value := Some(value))], free, heads, tail, height, entries,
             order, lev, items', model[items[k].key := value]);
    }

    method Size() returns (n: nat)
      requires Valid()
      ensures n == |model|
    {
      return entries;
    }

    method Get(key: int) returns (r: Option<V>)
      requires Valid()
      ensures r == if key in model then Some(model[key]) else None
    {
      ghost var k;
      var update, found;
      update, found, k := Search(key);
      if found.None? {
        return None;
      }
      assert StoredAt(arena[order[k]], lev[k], items[k], Before(order, k));
      return arena[found.value].value;
    }

    /** Inserts or overwrites; a new key beyond capacity is rejected and changes nothing. */
    method Put(key: int, value: V) returns (r: Result<(), Error>)
      requires Valid()
      modifies this
      ensures Valid()
      ensures r.Ok? <==> key in old(model) || capacity.Unbounded? || |old(model)| < capacity.maxEntries
      ensures model == if r.Ok? then old(model)[key := value] else old(model)
      ensures r.Err? ==> unchanged(this)
    {
      ghost var k;
      var update, found;
      update, found, k := Search(key);
      if found.Some? {
        Overwrite(found.value, value, k);
      } else {
        var inserted := InsertNew(key, value, update, k);
        if inserted.Err? {
          return Err(inserted.error);
        }
      }
      return Ok(());
    }

    method PutIfAbsent(key: int, value: V) returns (r: Result<bool, Error>)
      requires Valid()
      modifies this
      ensures Valid()
      ensures r.Err? <==> key !in old(model) && !HasRoom(old(model), capacity)
      ensures r.Ok? ==> r.value == (key !in old(model))
      ensures model == if r == Ok(true) then old(model)[key := value] else old(model)
      ensures r != Ok(true) ==> unchanged(this)
    {
      ghost var k;
      var update, found;
      update, found, k := Search(key);
      if found.Some? {
        return Ok(false);
      }
      var inserted := InsertNew(key, value, update, k);
      if inserted.Err? {
        return Err(inserted.error);
      }
      return Ok(true);
    }

    method Replace(key: int, value: V) returns (r: Result<Option<V>, Error>)
      requires Valid()
      modifies this
      ensures Valid()
      ensures r.Ok? <==> key in old(model) || HasRoom(old(model), capacity)
      ensures r.Ok? ==> r.value == if key in old(model) then Some(old(model)[key]) else None
      ensures model == if r.Ok? then old(model)[key := value] else old(model)
      ensures r.Err? ==> unchanged(this)
    {
      ghost var k;
      var update, found;
      update, found, k := Search(key);
      if found.Some? {
        assert StoredAt(arena[order[k]], lev[k], items[k], Before(order, k));
        var previous := arena[found.value].value;
        Overwrite(found.value, value, k);
        return Ok(previous);
      }
      var inserted := InsertNew(key, value, update, k);
      if inserted.Err? {
        return Err(inserted.error);
      }
      return Ok(None);
    }

    method Delete(key: int) returns (removed: bool)
      requires Valid()
      modifies this
      ensures Valid()
      ensures removed == (key in old(model)) && model == old(model) - {key}
    {
      ghost var k;
      var update, found;
      update, found, k := Search(key);
      if found.None? {
        return false;
      }
      RemoveFound(update, found.value, k);
      return true;
    }

    /** Applies `f` to the current value; `None` deletes, `Some` inserts or overwrites. */
    method Update(key: int, f: Option<V> -> Option<V>) returns (r: Result<(), Error>)
      requires Valid()
      modifies this
      ensures Valid()
      ensures var now := f(if key in old(model) then Some(old(model)[key]) else None);
              && (r.Err? <==> now.Some? && key !in old(model) && !HasRoom(old(model), capacity))
              && model == (if r.Err? then old(model) else if now.Some? then old(model)[key := now.value] else old(model) - {key})
      ensures r.Err? ==> unchanged(this)
    {
      ghost var k;
      var update, found;
      update, found, k := Search(key);
      if found.Some? {
        assert StoredAt(arena[order[k]], lev[k], items[k], Before(order, k));
        var now := f(arena[found.value].value);
        if now.Some? {
          Overwrite(found.value, now.value, k);
        } else {
          RemoveFound(update, found.value, k);
        }
      } else {
        var now := f(None);
        if now.Some? {
          var inserted := InsertNew(key, now.value, update, k);
          if inserted.Err? {
            return Err(inserted.error);
          }
        }
      }
      return Ok(());
    }

    method Clear()
      modifies this
      ensures Valid() && model == map[]
    {
      Become([], [], NO_LINKS, None, 0, 0, [], [], [], map[]);
    }

    /** A sweep stands at position `k`; every key before it is below `bound`. */
    ghost predicate Sweeping(update: Links, current: Link, k: nat, bound: int)
      reads this
    {
      && Preds(order, lev, k, update) && current == SlotAt(order, k)
      && k <= |items| && forall i :: 0 <= i < k ==> items[i].key < bound
    }

    /** Starts a sweep before the first entry. */
    method Sweep(ghost bound: int) returns (update: Links, current: Link, ghost k: nat)
      requires Valid()
      ensures Sweeping(update, current, k, bound)
    {
      StartPreds(order, lev);
      update, current, k := NO_LINKS, HeadSlot(), 0;
    }

    /** One step of the insert sweep: move to `key`, then overwrite or insert there. */
    method PutStep(key: int, value: V, update0: Links, current0: Link, ghost k0: nat, ghost bound: int)
      returns (r: Result<(), Error>, update: Links, current: Link, ghost k: nat)
      requires Valid() && Sweeping(update0, current0, k0, bound) && bound <= key
      modifies this
      ensures Valid()
      ensures r.Ok? <==> key in old(model) || HasRoom(old(model), capacity)
      ensures model == if r.Ok? then old(model)[key := value] else old(model)
      ensures r.Ok? ==> Sweeping(update, current, k, key)
    {
      StoredKeyed(arena, order, lev, items);
      update, current, k := SweepTo(arena, heads, update0, current0, key, order, lev, items, k0);
      BoundInMap(items, model, key, k);
      if current.Some? && KeyAt(current.value, k) == key {
        Overwrite(current.value, value, k);
      } else {
        var inserted := InsertNew(key, value, update, k);
        if inserted.Err? {
          r := Err(inserted.error);
          return;
        }
        current := Some(inserted.value);
      }
      r := Ok(());
    }

    /** One forward sweep over a key-sorted input does what repeated `Put` does. */
    method BulkPutSorted(input: seq<Item<V>>) returns (r: Result<(), Error>)
      requires Valid() && forall i, j :: 0 <= i < j < |input| ==> input[i].key <= input[j].key
      modifies this
      ensures Valid()
      ensures model == PutAll(old(model), input, capacity)
      ensures r.Ok? <==> AllFit(old(model), input, capacity)
    {
      r := Ok(());
      ghost var bound := if input == [] then 0 else input[0].key;
      ghost var k;
      var update, current;
      update, current, k := Sweep(bound);
      var n := 0;
      while n < |input|
        invariant n <= |input| && Valid() && r.Ok?
        invariant Sweeping(update, current, k, bound)
        invariant forall j :: n <= j < |input| ==> bound <= input[j].key
        invariant PutAll(model, input[n..], capacity) == PutAll(old(model), input, capacity)
        invariant AllFit(model, input[n..], capacity) == AllFit(old(model), input, capacity)
      {
        PutAllStep(model, input, n, capacity);
        assert forall j :: n < j < |input| ==> input[n].key <= input[j].key;
        r, update, current, k := PutStep(input[n].key, input[n].value, update, current, k, bound);
        if r.Err? {
          return;
        }
        bound := input[n].key;
        n := n + 1;
      }
      assert input[n..] == [];
    }

    /** One step of the delete sweep: move to `key` and remove it if it is there. */
    method DeleteStep(key: int, update0: Links, current0: Link, ghost k0: nat, ghost bound: int)
      returns (hit: bool, update: Links, current: Link, ghost k: nat)
      requires Valid() && Sweeping(update0, current0, k0, bound) && bound <= key
      modifies this
      ensures Valid()
      ensures hit == (key in old(model)) && model == old(model) - {key}
      ensures entries == if hit then old(entries) - 1 else old(entries)
      ensures Sweeping(update, current, k, key)
    {
      StoredKeyed(arena, order, lev, items);
      update, current, k := SweepTo(arena, heads, update0, current0, key, order, lev, items, k0);
      BoundInMap(items, model, key, k);
      hit := current.Some? && KeyAt(current.value, k) == key;
      if hit {
        var index := current.value;
        current := NextSlot(index, k);
        RemoveFound(update, index, k);
        SlotRemoved(old(order), k, order);
      } else {
        DeletedAbsent(model, key);
      }
    }

    /** One forward sweep over sorted keys does what repeated `Delete` does: exactly the listed keys go. */
    method BulkDeleteSorted(keys: seq<int>) returns (removed: nat)
      requires Valid() && forall i, j :: 0 <= i < j < |keys| ==> keys[i] <= keys[j]
      modifies this
      ensures Valid()
      ensures model == DeleteAll(old(model), keys) == (map k | k in old(model) && k !in keys :: old(model)[k])
      ensures removed == |old(model)| - |model|
    {
      removed := SweepAll(keys);
      DeleteAllIs(old(model), keys);
    }

    method SweepAll(keys: seq<int>) returns (removed: nat)
      requires Valid() && forall i, j :: 0 <= i < j < |keys| ==> keys[i] <= keys[j]
      modifies this
      ensures Valid()
      ensures model == DeleteAll(old(model), keys) && removed == |old(model)| - |model|
    {
      ghost var bound := if keys == [] then 0 else keys[0];
      ghost var k;
      var update, current;
      update, current, k := Sweep(bound);
      var n := 0;
      removed := 0;
      while n < |keys|
        invariant n <= |keys| && Valid()
        invariant Sweeping(update, current, k, bound)
        invariant forall j :: n <= j < |keys| ==> bound <= keys[j]
        invariant DeleteAll(model, keys[n..]) == DeleteAll(old(model), keys)
        invariant removed + entries == old(entries)
      {
        assert keys[n..][1..] == keys[n + 1..];
        assert forall j :: n < j < |keys| ==> keys[n] <= keys[j];
        var hit;
        hit, update, current, k := DeleteStep(keys[n], update, current, k, bound);
        if hit {
          removed := removed + 1;
        }
        bound := keys[n];
        n := n + 1;
        if current.None? {
          SweepEnded(items, model, keys[n..], bound);
          return;
        }
      }
      assert keys[n..] == [];
    }

    /** The slot of the first key at or above `key`. */
    method FirstAtOrAfter(key: int) returns (r: Link, ghost k: nat)
      requires Valid()
      ensures LowerBound(items, key, k) && r == SlotAt(order, k)
    {
      var update, found;
      update, found, k := Search(key);
      if found.Some? {
        return found, k;
      }
      BottomAfter(arena, heads, order, lev, items, k, update[0]);
      r := if update[0].Some? then arena[update[0].value].next[0] else heads[0];
    }

    /** The entries with `start <= key < end`, ascending. */
    method Range(start: int, end: int) returns (s: seq<Item<V>>, ghost a: nat, ghost b: nat)
      requires Valid()
      ensures LowerBound(items, start, a) && LowerBound(items, end, b)
      ensures s == if a <= b then items[a..b] else []
    {
      var current;
      current, a := FirstAtOrAfter(start);
      Chain(arena, heads, order, lev, items);
      b := Locate(items, end);
      s := Walk(arena, current, Some(end), order, items, a, b);
    }

    /** The entries with `start <= key < end`, descending along the back links. */
    method RangeRev(start: int, end: int) returns (s: seq<Item<V>>, ghost a: nat, ghost b: nat)
      requires Valid()
      ensures LowerBound(items, start, a) && LowerBound(items, end, b)
      ensures Reversed(if a <= b then items[a..b] else [], s)
    {
      var after;
      after, b := FirstAtOrAfter(end);
      Chain(arena, heads, order, lev, items);
      a := Locate(items, start);
      var current := LastBefore(arena, tail, after, end, order, items, b);
      s := WalkBack(arena, current, Some(start), order, items, a, b);
    }

    /** All entries, ascending. */
    method Entries() returns (s: seq<Item<V>>)
      requires Valid()
      ensures s == items
    {
      Chain(arena, heads, order, lev, items);
      s := Walk(arena, HeadSlot(), None, order, items, 0, |order|);
    }

    /** All entries, descending along the back links from the cached tail. */
    method EntriesRev() returns (s: seq<Item<V>>)
      requires Valid()
      ensures Reversed(items, s)
    {
      Chain(arena, heads, order, lev, items);
      s := WalkBack(arena, tail, None, order, items, 0, |order|);
      assert items[0..|order|] == items;
    }

    method First() returns (r: Option<Item<V>>)
      requires Valid()
      ensures r == if items == [] then None else Some(items[0])
    {
      Chain(arena, heads, order, lev, items);
      var head := HeadSlot();
      assert order != [] ==> ChainedAt(arena, order, items, 0);
      return if head.None? then None else Some(Item(arena[head.value].key, arena[head.value].value.value));
    }

    method Last() returns (r: Option<Item<V>>)
      requires Valid()
      ensures r == if items == [] then None else Some(items[|items| - 1])
    {
      Chain(arena, heads, order, lev, items);
      assert order != [] ==> ChainedAt(arena, order, items, |order| - 1);
      return if tail.None? then None else Some(Item(arena[tail.value].key, arena[tail.value].value.value));
    }

    function KeyAt(index: nat, ghost k: nat): (key: int)
      requires Valid() && k < |order| && order[k] == index
      reads this
      ensures key == items[k].key
    {
      StoredKeyed(arena, order, lev, items);
      arena[index].key
    }

    function HeadSlot(): (r: Link)
      requires Valid()
      reads this
      ensures r == SlotAt(order, 0)
    {
      StoredKeyed(arena, order, lev, items);
      assert heads[0] == SlotAt(order, 0) by {
        if order != [] {
          BottomNext(arena, heads, order, lev, 0);
        } else {
          assert Linked(heads[0], Row(arena, 0), order, lev, 0);
        }
      }
      heads[0]
    }

    function NextSlot(index: nat, ghost k: nat): (r: Link)
      requires Valid() && k < |order| && order[k] == index
      reads this
      ensures r == SlotAt(order, k + 1)
    {
      StoredKeyed(arena, order, lev, items);
      BottomNext(arena, heads, order, lev, k);
      arena[index].next[0]
    }
  }

  lemma HeightInserted<V>(arena: seq<Node<V>>, heads: Links, heads0: Links, order: seq<nat>, lev: seq<nat>, k: nat, h: nat, height: nat)
    requires Levels(arena, heads, order, lev, 0, MAX_LEVEL) && k < |lev| && lev[k] == h && 1 <= h <= MAX_LEVEL
    requires HeightOk(heads0, height) && forall l :: h <= l < MAX_LEVEL ==> heads[l] == heads0[l]
    ensures HeightOk(heads, if height < h then h else height)
  {
    assert Linked(heads[h - 1], Row(arena, h - 1), order, lev, h - 1);
    FirstNone(order, lev, 0, h - 1);
  }

  lemma HeightRemoved<V>(a: seq<Node<V>>, heads: Links, b: seq<Node<V>>, heads': Links, order: seq<nat>, lev: seq<nat>,
                         k: nat, order': seq<nat>, lev': seq<nat>, height: nat)
    requires Levels(a, heads, order, lev, 0, MAX_LEVEL) && Levels(b, heads', order', lev', 0, MAX_LEVEL)
    requires Rem(order, k, order') && Rem(lev, k, lev') && HeightOk(heads, height)
    ensures forall l :: height <= l < MAX_LEVEL ==> heads'[l] == None
  {
    forall l | height <= l < MAX_LEVEL ensures heads'[l] == None {
      assert Linked(heads[l], Row(a, l), order, lev, l);
      assert Linked(heads'[l], Row(b, l), order', lev', l);
      FirstNone(order, lev, 0, l);
      FirstNone(order', lev', 0, l);
    }
  }

  lemma StartPreds(order: seq<nat>, lev: seq<nat>)
    requires |order| == |lev|
    ensures Preds(order, lev, 0, NO_LINKS)
  {
    forall l | 0 <= l < MAX_LEVEL ensures IsPred(order, lev, 0, l, NO_LINKS[l]) {
      assert PredAt(order, lev, 0, l, None, -1);
    }
  }

  /** Past every entry, the keys left are absent. */
  lemma {:induction false} SweepEnded<V>(items: seq<Item<V>>, m: map<int, V>, keys: seq<int>, bound: int)
    requires Binds(items, m) && forall j :: 0 <= j < |keys| ==> bound <= keys[j]
    requires forall i :: 0 <= i < |items| ==> items[i].key < bound
    ensures DeleteAll(m, keys) == m
  {
    if keys != [] {
      BoundInMap(items, m, keys[0], |items|);
      DeletedAbsent(m, keys[0]);
      SweepEnded(items, m, keys[1..], bound);
    }
  }

  lemma DeletedAbsent<V>(m: map<int, V>, key: int)
    ensures key !in m ==> m - {key} == m
  {
  }

  lemma BottomAfter<V>(arena: seq<Node<V>>, heads: Links, order: seq<nat>, lev: seq<nat>, items: seq<Item<V>>, k: nat, u: Link)
    requires Levels(arena, heads, order, lev, 0, MAX_LEVEL) && Stored(arena, order, lev, items) && k <= |order|
    requires IsPred(order, lev, k, 0, u)
    ensures u.Some? ==> u.value < |arena|
    ensures SlotAt(order, k) == if u.Some? then arena[u.value].next[0] else heads[0]
  {
    StoredKeyed(arena, order, lev, items);
    assert Linked(heads[0], Row(arena, 0), order, lev, 0);
    AfterPred(heads[0], Row(arena, 0), order, lev, k, 0, u);
  }

  lemma SlotRemoved(order: seq<nat>, k: nat, order': seq<nat>)
    requires Rem(order, k, order')
    ensures SlotAt(order', k) == SlotAt(order, k + 1)
  {
  }
}
