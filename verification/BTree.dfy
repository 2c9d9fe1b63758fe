/** The tree above the pages: routing by separators and lookup. */
module BTrees {
  import opened Base
  import opened Bytes
  import opened LeafPages
  import LeafSplits
  import Lex

  /** A leaf with its neighbours in the chain, or an internal page: children and the separators between them. */
  datatype Page = Leaf(entries: seq<Entry>, next: nat, prev: nat) | Internal(kids: seq<nat>, seps: seq<bytes>)

  type Pages = map<nat, Page>

  /** What an internal page offers its separators, and what one costs beside its own bytes. */
  const INNER: nat := PAGE - 16
  const PER_CHILD: nat := 12

  /** The longest key an empty leaf can hold with any value. */
  const MAX_KEY: nat := 4056

  /** Values up to this size, with their key and lengths, stay in the leaf. */
  const MAX_INLINE: nat := PAGE - HEADER - SLOT - 6

  /** An entry as the tree writes it: a key of bounded size, the value inline if it is small enough. */
  predicate Storable(e: Entry) {
    |e.key| <= MAX_KEY && (e.length >= OVERFLOW || 6 + |e.key| + |e.payload| <= MAX_INLINE)
  }

  lemma StorableFits(e: Entry)
    requires Storable(e)
    ensures LeafSplits.Cost(e) <= LeafSplits.ROOM
  {
  }

  /** The bytes separators take up in an internal page. */
  function Used(seps: seq<bytes>): nat {
    if seps == [] then 0 else Used(seps[..|seps| - 1]) + PER_CHILD + |seps[|seps| - 1]|
  }

  lemma {:induction false} UsedInserted(seps: seq<bytes>, i: nat, sep: bytes)
    requires i <= |seps|
    ensures Used(Inserted(seps, i, sep)) == Used(seps) + PER_CHILD + |sep|
    decreases |seps|
  {
    var all, n := Inserted(seps, i, sep), |seps|;
    if i == n {
      assert all[..n] == seps;
    } else {
      UsedInserted(seps[..n - 1], i, sep);
      assert all[..n] == Inserted(seps[..n - 1], i, sep);
    }
  }

  // ---- routing ---------------------------------------------------------------------------

  /** A key goes to child `i`: at or above every separator before it and below every one after. */
  ghost predicate Routes(seps: seq<bytes>, key: bytes, i: nat) {
    && i <= |seps| && (forall j :: 0 <= j < i ==> Lex.Leq(seps[j], key))
    && (forall j :: i <= j < |seps| ==> Lex.Less(key, seps[j]))
  }

  ghost predicate Ascending(seps: seq<bytes>) {
    forall i, j :: 0 <= i < j < |seps| ==> Lex.Less(seps[i], seps[j])
  }

  /** Binary search of the separators. */
  method Search(seps: seq<bytes>, key: bytes) returns (i: nat)
    requires Ascending(seps)
    ensures Routes(seps, key, i)
  {
    var lo, hi := 0, |seps|;
    while lo < hi
      invariant 0 <= lo <= hi <= |seps|
      invariant forall j :: 0 <= j < lo ==> Lex.Leq(seps[j], key)
      invariant forall j :: hi <= j < |seps| ==> Lex.Less(key, seps[j])
    {
      var mid := lo + (hi - lo) / 2;
      Lex.Total(key, seps[mid]);
      if Lex.Less(key, seps[mid]) {
        forall j | mid < j < |seps| ensures Lex.Less(key, seps[j]) {
          Lex.Transitive(key, seps[mid], seps[j]);
        }
        hi := mid;
      } else {
        forall j | 0 <= j < mid ensures Lex.Leq(seps[j], key) {
          if seps[mid] != key {
            Lex.Transitive(seps[j], seps[mid], key);
          }
        }
        lo := mid + 1;
      }
    }
    return lo;
  }

  lemma OneRoute(seps: seq<bytes>, key: bytes, i: nat, j: nat)
    requires Routes(seps, key, i) && Routes(seps, key, j)
    ensures i == j
  {
    if i < j {
      Lex.Total(seps[i], key);
    }
    if j < i {
      Lex.Total(seps[j], key);
    }
  }

  // ---- a parent gains a child -----------------------------------------------------------------

  /**
   Inserting a separator and the new right page into a parent with room changes the route of no key,
   save that keys of the split child at or above the separator now go to the new page.
   */
  lemma RouteInserted(seps: seq<bytes>, kids: seq<nat>, sep: bytes, right: nat, pos: nat, key: bytes, i: nat, i': nat)
    requires |kids| == |seps| + 1 && Routes(seps, sep, pos) && Routes(seps, key, i)
    requires Routes(Inserted(seps, pos, sep), key, i')
    ensures Inserted(kids, pos + 1, right)[i'] == if i == pos && Lex.Leq(sep, key) then right else kids[i]
  {
    var seps' := Inserted(seps, pos, sep);
    Lex.Total(sep, key);
    forall j | 0 <= j < i && j < pos ensures Lex.Leq(seps'[j], key) {
      assert seps'[j] == seps[j];
    }
    var t := if i < pos then i else if i > pos then i + 1 else if Lex.Leq(sep, key) then pos + 1 else pos;
    RouteTarget(seps, sep, pos, key, i, t);
    OneRoute(seps', key, i', t);
  }

  lemma RouteTarget(seps: seq<bytes>, sep: bytes, pos: nat, key: bytes, i: nat, t: nat)
    requires Routes(seps, sep, pos) && Routes(seps, key, i)
    requires t == if i < pos then i else if i > pos then i + 1 else if Lex.Leq(sep, key) then pos + 1 else pos
    ensures Routes(Inserted(seps, pos, sep), key, t)
  {
    var seps' := Inserted(seps, pos, sep);
    Lex.Total(sep, key);
    if i < pos {
      Lex.LeqLess(key, seps[i], sep);
    } else if i > pos {
      assert Lex.Less(sep, seps[pos]) && Lex.Leq(seps[pos], key);
      Lex.LeqLess(sep, seps[pos], key);
    }
    forall j | 0 <= j < t ensures Lex.Leq(seps'[j], key) {
      assert seps'[j] == if j < pos then seps[j] else if j == pos then sep else seps[j - 1];
    }
    forall j | t <= j < |seps'| ensures Lex.Less(key, seps'[j]) {
      assert seps'[j] == if j < pos then seps[j] else if j == pos then sep else seps[j - 1];
    }
  }

  /** A separator between two keys of one child belongs right after that child. */
  lemma SeparatorRouted(seps: seq<bytes>, a: bytes, sep: bytes, b: bytes, pos: nat)
    requires Routes(seps, a, pos) && Routes(seps, b, pos) && Lex.Less(a, sep) && Lex.Leq(sep, b)
    ensures Routes(seps, sep, pos)
  {
    forall j | 0 <= j < pos ensures Lex.Leq(seps[j], sep) {
      Lex.LeqLess(seps[j], a, sep);
    }
    forall j | pos <= j < |seps| ensures Lex.Less(sep, seps[j]) {
      Lex.LeqLess(sep, b, seps[j]);
    }
  }

  // ---- subtrees ------------------------------------------------------------------------------

  /** The shape of a subtree: a leaf with its entries, or an internal page with the subtrees below it. */
  datatype Node = Tip(page: nat, entries: seq<Entry>) | Fork(page: nat, nodes: seq<Node>)

  /** The entries below a node, from left to right. */
  function Items(n: Node): seq<Entry> {
    match n
    case Tip(_, entries) => entries
    case Fork(_, nodes) => Concat(nodes)
  }

  function Concat(nodes: seq<Node>): seq<Entry> {
    if nodes == [] then [] else Concat(nodes[..|nodes| - 1]) + Items(nodes[|nodes| - 1])
  }

  /** The subtree is stored in the pages, its leaves are in order, and its separators ascend and separate. */
  ghost predicate Stored(pages: Pages, n: Node)
    decreases n
  {
    && n.page in pages
    && match n
       case Tip(p, entries) => pages[p].Leaf? && pages[p].entries == entries && Ordered(entries)
       case Fork(p, nodes) =>
         && pages[p].Internal? && |nodes| == |pages[p].kids| == |pages[p].seps| + 1 && Ascending(pages[p].seps)
         && (forall i :: 0 <= i < |nodes| ==> pages[p].kids[i] == nodes[i].page && Stored(pages, nodes[i]))
         && (forall i, j :: 0 <= i < j < |nodes| && j == i + 1 ==> Between(pages[p].seps[i], nodes[i], nodes[j]))
  }

  /** Above everything below `a` and not above anything below `b`. */
  ghost predicate Between(sep: bytes, a: Node, b: Node) {
    (forall e :: e in Items(a) ==> Lex.Less(e.key, sep)) && (forall e :: e in Items(b) ==> Lex.Leq(sep, e.key))
  }

  lemma ConcatMore(nodes: seq<Node>, n: Node)
    ensures Concat(nodes + [n]) == Concat(nodes) + Items(n)
  {
    assert (nodes + [n])[..|nodes|] == nodes;
  }

  lemma {:induction false} InConcat(nodes: seq<Node>, e: Entry)
    ensures e in Concat(nodes) <==> exists i :: 0 <= i < |nodes| && e in Items(nodes[i])
  {
    if nodes != [] {
      var front := nodes[..|nodes| - 1];
      InConcat(front, e);
      if i :| 0 <= i < |front| && e in Items(front[i]) {
        assert e in Items(nodes[i]);
      }
      if i :| 0 <= i < |nodes| && e in Items(nodes[i]) {
        assert i < |front| ==> e in Items(front[i]);
      }
    }
  }

  lemma {:induction false} OrderedPart(nodes: seq<Node>, i: nat)
    requires Ordered(Concat(nodes)) && i < |nodes|
    ensures Ordered(Items(nodes[i]))
    decreases |nodes|
  {
    var front, last := nodes[..|nodes| - 1], nodes[|nodes| - 1];
    var a, b := Concat(front), Items(last);
    if i == |nodes| - 1 {
      forall x, y | 0 <= x < y < |b| ensures Lex.Less(b[x].key, b[y].key) {
        assert (a + b)[|a| + x] == b[x] && (a + b)[|a| + y] == b[y];
      }
    } else {
      forall x, y | 0 <= x < y < |a| ensures Lex.Less(a[x].key, a[y].key) {
        assert (a + b)[x] == a[x] && (a + b)[y] == a[y];
      }
      OrderedPart(front, i);
    }
  }

  /** An entry with the key can only be below the child the key is routed to. */
  lemma OnlyBelow(pages: Pages, n: Node, key: bytes, i: nat, e: Entry)
    requires Stored(pages, n) && n.Fork? && Routes(pages[n.page].seps, key, i) && e in Items(n) && e.key == key
    ensures e in Items(n.nodes[i])
  {
    InConcat(n.nodes, e);
    var seps := pages[n.page].seps;
    var j :| 0 <= j < |n.nodes| && e in Items(n.nodes[j]);
    if j < i {
      assert Between(seps[j], n.nodes[j], n.nodes[j + 1]);
      Lex.Total(e.key, seps[j]);
    } else if j > i {
      assert Between(seps[j - 1], n.nodes[j - 1], n.nodes[j]);
      Lex.Total(e.key, seps[j - 1]);
    }
  }

  // ---- descending --------------------------------------------------------------------------------

  function RouteOf(seps: seq<bytes>, key: bytes): (i: nat)
    ensures i <= |seps|
  {
    if seps == [] || Lex.Less(key, seps[0]) then 0 else 1 + RouteOf(seps[1..], key)
  }

  lemma {:induction false} RouteIs(seps: seq<bytes>, key: bytes)
    requires Ascending(seps)
    ensures Routes(seps, key, RouteOf(seps, key))
  {
    if seps != [] {
      Lex.Total(key, seps[0]);
      if Lex.Less(key, seps[0]) {
        forall j | 0 < j < |seps| ensures Lex.Less(key, seps[j]) {
          Lex.Transitive(key, seps[0], seps[j]);
        }
      } else {
        RouteIs(seps[1..], key);
        var i := RouteOf(seps[1..], key);
        forall j | 0 <= j < i + 1 ensures Lex.Leq(seps[j], key) {
          assert j > 0 ==> seps[j] == seps[1..][j - 1];
        }
        forall j | i + 1 <= j < |seps| ensures Lex.Less(key, seps[j]) {
          assert seps[j] == seps[1..][j - 1];
        }
      }
    }
  }

  /** The pages of the subtree can be descended, whatever its leaves hold. */
  ghost predicate Routable(pages: Pages, n: Node)
    decreases n
  {
    && n.page in pages
    && match n
       case Tip(p, _) => pages[p].Leaf? && Ordered(pages[p].entries)
       case Fork(p, nodes) =>
         && pages[p].Internal? && |nodes| == |pages[p].kids| == |pages[p].seps| + 1 && Ascending(pages[p].seps)
         && (forall i :: 0 <= i < |nodes| ==> pages[p].kids[i] == nodes[i].page && Routable(pages, nodes[i]))
  }

  lemma {:induction false} StoredRoutable(pages: Pages, n: Node)
    requires Stored(pages, n)
    ensures Routable(pages, n)
    decreases n
  {
    if n.Fork? {
      forall i | 0 <= i < |n.nodes| ensures Routable(pages, n.nodes[i]) {
        StoredRoutable(pages, n.nodes[i]);
      }
    }
  }

  /** The leaf a key is routed to. */
  ghost function LeafFor(pages: Pages, n: Node, key: bytes): nat
    requires Routable(pages, n)
    decreases n
  {
    if n.Tip? then n.page else LeafFor(pages, n.nodes[RouteOf(pages[n.page].seps, key)], key)
  }

  /** Walks down from the root to the leaf of a key. */
  method FindLeaf(pages: Pages, root: nat, key: bytes, ghost n: Node) returns (p: nat)
    requires Routable(pages, n) && root == n.page
    ensures p == LeafFor(pages, n, key) && p in pages && pages[p].Leaf? && Ordered(pages[p].entries)
  {
    p := root;
    ghost var m := n;
    while pages[p].Internal?
      invariant Routable(pages, m) && p == m.page && LeafFor(pages, m, key) == LeafFor(pages, n, key)
      decreases m
    {
      var i := Search(pages[p].seps, key);
      RouteIs(pages[p].seps, key);
      OneRoute(pages[p].seps, key, i, RouteOf(pages[p].seps, key));
      p, m := pages[p].kids[i], m.nodes[i];
    }
  }

  /** The leaf a key is routed to holds its entry if any leaf does. */
  lemma {:induction false} AtLeaf(pages: Pages, n: Node, key: bytes, e: Entry)
    requires Stored(pages, n) && Routable(pages, n) && e.key == key
    ensures LeafFor(pages, n, key) in pages && pages[LeafFor(pages, n, key)].Leaf?
    ensures e in Items(n) <==> e in pages[LeafFor(pages, n, key)].entries
    decreases n
  {
    if n.Fork? {
      var i := RouteOf(pages[n.page].seps, key);
      RouteIs(pages[n.page].seps, key);
      AtLeaf(pages, n.nodes[i], key, e);
      InConcat(n.nodes, e);
      if e in Items(n) {
        OnlyBelow(pages, n, key, i, e);
      }
    }
  }

  ghost predicate Holds(entries: seq<Entry>, key: bytes) {
    exists e :: e in entries && e.key == key
  }

  lemma NotThere(entries: seq<Entry>, key: bytes, pos: nat)
    requires Ordered(entries) && Splits(entries, key, pos) && (pos < |entries| ==> entries[pos].key != key)
    ensures !Holds(entries, key)
  {
    forall e | e in entries ensures e.key != key {
      var j :| 0 <= j < |entries| && entries[j] == e;
      Lex.Total(key, key);
      if j > pos {
        Lex.Total(entries[pos].key, key);
        Lex.Transitive(key, entries[pos].key, entries[j].key);
      }
    }
  }

  /** The entry of a leaf with the key, if there is one. */
  method InLeaf(entries: seq<Entry>, key: bytes) returns (r: Option<Entry>)
    requires Ordered(entries)
    ensures r.Some? ==> r.value in entries && r.value.key == key
    ensures r.None? ==> !Holds(entries, key)
  {
    var i := LeafSplits.Position(entries, key);
    if i < |entries| && entries[i].key == key {
      return Some(entries[i]);
    }
    NotThere(entries, key, i);
    return None;
  }

  /** Descends by separators and looks into the leaf it comes to. */
  method Find(pages: Pages, root: nat, key: bytes, ghost n: Node) returns (r: Option<Entry>)
    requires Routable(pages, n) && root == n.page
    ensures var leaf := LeafFor(pages, n, key);
            && leaf in pages && pages[leaf].Leaf?
            && (r.Some? ==> r.value in pages[leaf].entries && r.value.key == key) && (r.None? ==> !Holds(pages[leaf].entries, key))
  {
    var p := FindLeaf(pages, root, key, n);
    r := InLeaf(pages[p].entries, key);
  }

  /** Finds exactly the entry with the key, if the tree holds one. */
  method Get(pages: Pages, root: nat, key: bytes, ghost n: Node) returns (r: Option<Entry>)
    requires Stored(pages, n) && root == n.page
    ensures r.Some? ==> r.value in Items(n) && r.value.key == key
    ensures r.None? ==> !Holds(Items(n), key)
  {
    StoredRoutable(pages, n);
    r := Find(pages, root, key, n);
    forall e: Entry | e.key == key ensures e in Items(n) <==> e in pages[LeafFor(pages, n, key)].entries {
      AtLeaf(pages, n, key, e);
    }
  }

  // ---- the pages of a subtree -------------------------------------------------------------------------

  ghost predicate Has(n: Node, p: nat) {
    p == n.page || (n.Fork? && exists i :: 0 <= i < |n.nodes| && Has(n.nodes[i], p))
  }

  /** No page occurs twice in the subtree. */
  ghost predicate Apart(n: Node) {
    n.Fork? ==>
      && (forall i :: 0 <= i < |n.nodes| ==> Apart(n.nodes[i]) && !Has(n.nodes[i], n.page))
      && (forall i, j :: 0 <= i < j < |n.nodes| ==> Disjoint(n.nodes[i], n.nodes[j]))
  }

  ghost predicate Disjoint(a: Node, b: Node) {
    forall p :: !(Has(a, p) && Has(b, p))
  }

  /** The pages hold the same, the links of leaves aside. */
  predicate Alike(a: Page, b: Page) {
    a == b || (a.Leaf? && b.Leaf? && a.entries == b.entries)
  }

  ghost predicate Keeps(pages: Pages, pages': Pages, p: nat) {
    p in pages && p in pages' && Alike(pages[p], pages'[p])
  }

  /** Changes elsewhere, and to the links of leaves, do not disturb a subtree. */
  lemma {:induction false} StoredKept(pages: Pages, pages': Pages, n: Node)
    requires Stored(pages, n) && forall p :: Has(n, p) ==> Keeps(pages, pages', p)
    ensures Stored(pages', n)
    decreases n
  {
    assert Has(n, n.page);
    if n.Fork? {
      forall i | 0 <= i < |n.nodes| ensures Stored(pages', n.nodes[i]) {
        StoredKept(pages, pages', n.nodes[i]);
      }
      forall i, j | 0 <= i < j < |n.nodes| && j == i + 1 ensures Between(pages'[n.page].seps[i], n.nodes[i], n.nodes[j]) {
        assert Between(pages[n.page].seps[i], n.nodes[i], n.nodes[j]);
      }
    }
  }

  lemma {:induction false} HasStored(pages: Pages, n: Node, p: nat)
    requires Stored(pages, n) && Has(n, p)
    ensures p in pages
    decreases n
  {
    if p != n.page {
      var i :| 0 <= i < |n.nodes| && Has(n.nodes[i], p);
      HasStored(pages, n.nodes[i], p);
    }
  }

  /** Pages added elsewhere do not disturb a subtree. */
  lemma StoredGrows(pages: Pages, pages': Pages, n: Node)
    requires Stored(pages, n) && forall p :: p in pages ==> p in pages' && pages'[p] == pages[p]
    ensures Stored(pages', n)
  {
    forall p | Has(n, p) ensures Keeps(pages, pages', p) {
      HasStored(pages, n, p);
    }
    StoredKept(pages, pages', n);
  }
}
