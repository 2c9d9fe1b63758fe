/** Loading a sorted list into a tree without entries: a new one, or one emptied by deletes. */
module BulkPuts {
  import opened Base
  import opened Bytes
  import opened LeafPages
  import opened LeafSplits
  import T = BTrees
  import opened BTrees
  import opened TreeEdits
  import opened TreeSplits
  import opened Trees
  import opened BulkLoads
  import Lex

  // ---- the leftmost leaf ------------------------------------------------------------------------

  /** The key is below every separator on the way to the leftmost leaf. */
  ghost predicate Left(pages: Pages, n: Node, key: bytes)
    requires Routable(pages, n)
    decreases n
  {
    n.Fork? ==> (pages[n.page].seps == [] || Lex.Less(key, pages[n.page].seps[0])) && Left(pages, n.nodes[0], key)
  }

  lemma {:induction false} LeavesLead(nodes: seq<Node>)
    requires nodes != [] && LeavesOf(nodes[0]) != []
    ensures LeavesIn(nodes) != [] && LeavesIn(nodes)[0] == LeavesOf(nodes[0])[0]
  {
    assert nodes == [nodes[0]] + nodes[1..];
    LeavesSplit([nodes[0]], nodes[1..]);
    LeavesOne(nodes[0]);
  }

  /** The first leaf of a subtree is one of its pages. */
  lemma {:induction false} FirstLeaf(pages: Pages, n: Node)
    requires Routable(pages, n)
    ensures LeavesOf(n) != [] && Has(n, LeavesOf(n)[0])
    ensures n.Fork? ==> LeavesOf(n.nodes[0]) != [] && LeavesOf(n)[0] == LeavesOf(n.nodes[0])[0]
    decreases n
  {
    if n.Fork? {
      FirstLeaf(pages, n.nodes[0]);
      LeavesLead(n.nodes);
    }
  }

  lemma {:induction false} HasLeafFor(pages: Pages, n: Node, key: bytes)
    requires Routable(pages, n)
    ensures Has(n, LeafFor(pages, n, key))
    decreases n
  {
    if n.Fork? {
      HasLeafFor(pages, n.nodes[RouteOf(pages[n.page].seps, key)], key);
    }
  }

  /** A key is routed to the leftmost leaf exactly when it is below those separators. */
  lemma {:induction false} LeftIs(pages: Pages, n: Node, key: bytes)
    requires Routable(pages, n) && Apart(n)
    ensures LeavesOf(n) != [] && (LeafFor(pages, n, key) == LeavesOf(n)[0] <==> Left(pages, n, key))
    decreases n
  {
    FirstLeaf(pages, n);
    if n.Fork? {
      var i := RouteOf(pages[n.page].seps, key);
      LeftIs(pages, n.nodes[0], key);
      FirstLeaf(pages, n.nodes[0]);
      HasLeafFor(pages, n.nodes[i], key);
      assert i > 0 ==> Disjoint(n.nodes[0], n.nodes[i]);
    }
  }

  /** Keys before one that is routed there are too. */
  lemma {:induction false} LeftBefore(pages: Pages, n: Node, key: bytes, last: bytes)
    requires Routable(pages, n) && Left(pages, n, last) && Lex.Leq(key, last)
    ensures Left(pages, n, key)
    decreases n
  {
    if n.Fork? {
      LeftBefore(pages, n.nodes[0], key, last);
      if pages[n.page].seps != [] {
        Lex.LeqLess(key, last, pages[n.page].seps[0]);
      }
    }
  }

  // ---- one leaf is enough -------------------------------------------------------------------------------

  /** A lookup by the key of the entry finds it. */
  ghost predicate Reaches(pages: Pages, n: Node, e: Entry) {
    && Routable(pages, n)
    && var p := LeafFor(pages, n, e.key); p in pages && pages[p].Leaf? && e in pages[p].entries
  }

  lemma {:induction false} RoutableWritten(pages: Pages, n: Node, p: nat, entries: seq<Entry>, key: bytes)
    requires Routable(pages, n) && p in pages && pages[p].Leaf? && Ordered(entries)
    ensures Routable(Written(pages, p, entries), n) && LeafFor(Written(pages, p, entries), n, key) == LeafFor(pages, n, key)
    decreases n
  {
    if n.Fork? {
      forall i | 0 <= i < |n.nodes| ensures Routable(Written(pages, p, entries), n.nodes[i]) {
        RoutableWritten(pages, n.nodes[i], p, entries, key);
      }
      RoutableWritten(pages, n.nodes[RouteOf(pages[n.page].seps, key)], p, entries, key);
    }
  }

  /** Entries written to the leftmost leaf of a tree without entries are found exactly if they are routed there. */
  lemma OneLeafFound(pages: Pages, n: Node, entries: seq<Entry>, e: Entry)
    requires T.Stored(pages, n) && Routable(pages, n) && Apart(n) && Items(n) == [] && Ordered(entries) && e in entries
    requires LeavesOf(n) != [] && LeavesOf(n)[0] in pages && pages[LeavesOf(n)[0]].Leaf?
    ensures Reaches(Written(pages, LeavesOf(n)[0], entries), n, e) <==> Left(pages, n, e.key)
  {
    LeftIs(pages, n, e.key);
    RoutableWritten(pages, n, LeavesOf(n)[0], entries, e.key);
    AtLeaf(pages, n, e.key, e);
  }

  /** The shape with the entries in its leftmost leaf. */
  function LeftTree(n: Node, entries: seq<Entry>): Node {
    if n.Tip? then Tip(n.page, entries)
    else if n.nodes == [] then n
    else Fork(n.page, n.nodes[0 := LeftTree(n.nodes[0], entries)])
  }

  lemma {:induction false} LeftTreePages(n: Node, entries: seq<Entry>)
    requires Apart(n)
    ensures LeftTree(n, entries).page == n.page && Apart(LeftTree(n, entries)) && forall p :: Has(LeftTree(n, entries), p) <==> Has(n, p)
  {
    if n.Fork? && n.nodes != [] {
      var c := LeftTree(n.nodes[0], entries);
      LeftTreePages(n.nodes[0], entries);
      ChildApart(n, 0, c);
      var m := LeftTree(n, entries);
      assert m == WithChild(n, 0, c);
      forall p | Has(n, p) ensures Has(m, p) {
        if p != n.page {
          var i :| 0 <= i < |n.nodes| && Has(n.nodes[i], p);
          assert Has(m.nodes[i], p);
        }
      }
    }
  }

  lemma {:induction false} LeftTreeLeaves(n: Node, entries: seq<Entry>)
    ensures LeavesOf(LeftTree(n, entries)) == LeavesOf(n)
  {
    if n.Fork? && n.nodes != [] {
      LeftTreeLeaves(n.nodes[0], entries);
      LeavesAround(n.nodes, 0);
      LeavesBeside(n.nodes, 0, LeftTree(n.nodes[0], entries));
    }
  }

  lemma {:induction false} EmptyParts(nodes: seq<Node>, i: nat)
    requires Concat(nodes) == [] && i < |nodes|
    ensures Items(nodes[i]) == []
    decreases |nodes|
  {
    if i < |nodes| - 1 {
      EmptyParts(nodes[..|nodes| - 1], i);
    }
  }

  lemma {:induction false} ConcatOne(nodes: seq<Node>)
    requires nodes != [] && forall i :: 0 < i < |nodes| ==> Items(nodes[i]) == []
    ensures Concat(nodes) == Items(nodes[0])
  {
    if |nodes| > 1 {
      ConcatOne(nodes[..|nodes| - 1]);
    } else {
      assert nodes[..0] == [];
    }
  }

  lemma {:induction false} LeftTreeItems(n: Node, entries: seq<Entry>)
    requires Items(n) == [] && LeavesOf(n) != [] && IsFull(n)
    ensures Items(LeftTree(n, entries)) == entries
  {
    if n.Fork? {
      EmptyParts(n.nodes, 0);
      LeftTreeItems(n.nodes[0], entries);
      var nodes' := n.nodes[0 := LeftTree(n.nodes[0], entries)];
      forall i | 0 < i < |nodes'| ensures Items(nodes'[i]) == [] {
        EmptyParts(n.nodes, i);
      }
      ConcatOne(nodes');
    }
  }

  /** Every internal page has children. */
  ghost predicate IsFull(n: Node) {
    n.Fork? ==> n.nodes != [] && LeavesOf(n.nodes[0]) != [] && forall i :: 0 <= i < |n.nodes| ==> IsFull(n.nodes[i])
  }

  lemma {:induction false} RoutableFull(pages: Pages, n: Node)
    requires Routable(pages, n)
    ensures IsFull(n)
    decreases n
  {
    if n.Fork? {
      forall i | 0 <= i < |n.nodes| ensures IsFull(n.nodes[i]) {
        RoutableFull(pages, n.nodes[i]);
      }
      FirstLeaf(pages, n.nodes[0]);
    }
  }

  /** If they are all routed there, the tree is the one that holds them. */
  lemma {:induction false} LeftStored(pages: Pages, n: Node, p: nat, entries: seq<Entry>)
    requires T.Stored(pages, n) && Routable(pages, n) && Apart(n) && Items(n) == [] && Ordered(entries)
    requires LeavesOf(n) != [] && p == LeavesOf(n)[0] && p in pages && pages[p].Leaf? && forall e :: e in entries ==> Left(pages, n, e.key)
    ensures T.Stored(Written(pages, p, entries), LeftTree(n, entries)) && Items(LeftTree(n, entries)) == entries
    decreases n
  {
    RoutableFull(pages, n);
    LeftTreeItems(n, entries);
    if n.Fork? {
      FirstLeaf(pages, n);
      EmptyParts(n.nodes, 0);
      forall e | e in entries ensures Left(pages, n.nodes[0], e.key) {
        assert Left(pages, n, e.key);
      }
      LeftStored(pages, n.nodes[0], p, entries);
      FirstLeaf(pages, n.nodes[0]);
      LeftFork(pages, n, p, entries);
    }
  }

  lemma LeftFork(pages: Pages, n: Node, p: nat, entries: seq<Entry>)
    requires T.Stored(pages, n) && n.Fork? && Apart(n) && Has(n.nodes[0], p) && p in pages && pages[p].Leaf?
    requires Items(n) == [] && forall e :: e in entries ==> pages[n.page].seps == [] || Lex.Less(e.key, pages[n.page].seps[0])
    requires var c := LeftTree(n.nodes[0], entries); T.Stored(Written(pages, p, entries), c) && c.page == n.nodes[0].page && Items(c) == entries
    ensures T.Stored(Written(pages, p, entries), LeftTree(n, entries))
  {
    var pages', c, seps := Written(pages, p, entries), LeftTree(n.nodes[0], entries), pages[n.page].seps;
    var nodes' := n.nodes[0 := c];
    assert pages'[n.page] == pages[n.page];
    forall j | 0 <= j < |nodes'| ensures pages[n.page].kids[j] == nodes'[j].page && T.Stored(pages', nodes'[j]) {
      if j != 0 {
        assert Disjoint(n.nodes[0], n.nodes[j]);
        LeftSibling(pages, n, p, entries, j);
      }
    }
    forall j, k | 0 <= j < k < |nodes'| && k == j + 1 ensures T.Between(seps[j], nodes'[j], nodes'[k]) {
      assert T.Between(seps[j], n.nodes[j], n.nodes[k]);
    }
  }

  lemma LeftSibling(pages: Pages, n: Node, p: nat, entries: seq<Entry>, j: nat)
    requires T.Stored(pages, n) && n.Fork? && 0 < j < |n.nodes| && !Has(n.nodes[j], p) && p in pages && pages[p].Leaf?
    ensures T.Stored(Written(pages, p, entries), n.nodes[j])
  {
    forall x | Has(n.nodes[j], x) ensures Keeps(pages, Written(pages, p, entries), x) {
      HasStored(pages, n.nodes[j], x);
    }
    T.StoredKept(pages, Written(pages, p, entries), n.nodes[j]);
  }

  // ---- the load ---------------------------------------------------------------------------------------------

  lemma {:induction false} LastOf(entries: seq<Entry>, e: Entry)
    requires Ordered(entries) && e in entries
    ensures Lex.Leq(e.key, entries[|entries| - 1].key)
  {
    EndsOf(entries, e);
  }

  /** The load of one leaf, for the whole tree. */
  lemma OneLeafSound(pages: Pages, root: nat, rightmost: nat, n: Node, entries: seq<Entry>)
    requires Sound(pages, root, rightmost, n) && Items(n) == [] && Ordered(entries) && Sum(entries) <= ROOM
    ensures Routable(pages, n) && Starts(pages)
    ensures forall e :: e in entries ==> (Reaches(Written(pages, 1, entries), n, e) <==> Left(pages, n, e.key))
    ensures entries == [] || Left(pages, n, entries[|entries| - 1].key) ==>
              Sound(Written(pages, 1, entries), root, rightmost, LeftTree(n, entries)) && Items(LeftTree(n, entries)) == entries
  {
    StoredRoutable(pages, n);
    StartsHere(pages, root, rightmost, n);
    forall e | e in entries ensures Reaches(Written(pages, 1, entries), n, e) <==> Left(pages, n, e.key) {
      OneLeafFound(pages, n, entries, e);
    }
    if entries == [] || Left(pages, n, entries[|entries| - 1].key) {
      forall e | e in entries ensures Left(pages, n, e.key) {
        LastOf(entries, e);
        LeftBefore(pages, n, e.key, entries[|entries| - 1].key);
      }
      LeftStored(pages, n, 1, entries);
      LeftTreePages(n, entries);
      LeftTreeLeaves(n, entries);
      ChainWritten(pages, LeavesOf(n), 1, entries);
    }
  }

  lemma StartsHere(pages: Pages, root: nat, rightmost: nat, n: Node)
    requires Sound(pages, root, rightmost, n) && Routable(pages, n) && Items(n) == []
    ensures Starts(pages)
  {
    assert Links(pages, LeavesOf(n), 0);
    FirstEmpty(pages, n);
  }

  lemma {:induction false} FirstEmpty(pages: Pages, n: Node)
    requires T.Stored(pages, n) && Routable(pages, n) && Items(n) == []
    ensures LeavesOf(n) != [] && LeavesOf(n)[0] in pages && pages[LeavesOf(n)[0]].Leaf? && pages[LeavesOf(n)[0]].entries == []
    decreases n
  {
    FirstLeaf(pages, n);
    if n.Fork? {
      EmptyParts(n.nodes, 0);
      FirstEmpty(pages, n.nodes[0]);
    }
  }

  /**
   Loads any strictly ascending list of entries into a tree without entries. If they need more than one leaf, or
   the tree is a single leaf, the result is a valid tree that holds exactly them. Otherwise only page one is written:
   an entry is found exactly if its key is below every old separator on the way there, and if that is so of the last
   key the tree holds exactly the list, save that its rightmost leaf is taken to be page one.
   */
  method BulkPutSorted(tree: Tree, items: seq<Entry>)
    requires tree.Valid() && tree.Entries() == [] && Ordered(items) && forall i :: 0 <= i < |items| ==> Storable(items[i])
    modifies tree
    ensures Sum(items) > ROOM || old(tree.shape).Tip? ==> tree.Valid() && tree.Entries() == items
    ensures Sum(items) <= ROOM ==>
              tree.root == old(tree.root) && tree.rightmost == 1 && 1 in old(tree.pages) && old(tree.pages)[1].Leaf? && tree.pages == Written(old(tree.pages), 1, items)
    ensures Sum(items) <= ROOM ==> Routable(old(tree.pages), old(tree.shape)) && forall e :: e in items ==>
              (Reaches(tree.pages, old(tree.shape), e) <==> Left(old(tree.pages), old(tree.shape), e.key))
    ensures Sum(items) <= ROOM && (items == [] || Left(old(tree.pages), old(tree.shape), items[|items| - 1].key)) ==>
              Sound(tree.pages, tree.root, old(tree.rightmost), tree.shape) && tree.Entries() == items
  {
    ghost var shape := LeftTree(tree.shape, items);
    OneLeaf(tree.pages, tree.root, tree.rightmost, tree.shape, items);
    var p, r, last;
    ghost var built;
    p, r, last, built := Build(tree.pages, tree.root, items);
    tree.pages, tree.root, tree.rightmost, tree.shape := p, r, last, if Sum(items) > ROOM then built else shape;
  }

  /** Runs the builder over the pages of a tree without entries. */
  method Build(pages: Pages, root: nat, items: seq<Entry>) returns (pages': Pages, root': nat, rightmost: nat, ghost built: Node)
    requires Starts(pages) && Ordered(items) && forall i :: 0 <= i < |items| ==> Storable(items[i])
    ensures Sum(items) > ROOM ==> Sound(pages', root', rightmost, built) && Items(built) == items
    ensures Sum(items) <= ROOM ==> root' == root && rightmost == 1 && pages' == Written(pages, 1, items)
  {
    var b := new Builder(pages, root);
    b.PushAll(items);
    built := b.Finish();
    pages', root', rightmost := b.pages, b.root, b.current;
  }

  lemma OneLeaf(pages: Pages, root: nat, rightmost: nat, n: Node, entries: seq<Entry>)
    requires Sound(pages, root, rightmost, n) && Items(n) == [] && Ordered(entries)
    ensures Routable(pages, n) && Starts(pages)
    ensures Sum(entries) <= ROOM ==> forall e :: e in entries ==> (Reaches(Written(pages, 1, entries), n, e) <==> Left(pages, n, e.key))
    ensures Sum(entries) <= ROOM && (n.Tip? || entries == [] || Left(pages, n, entries[|entries| - 1].key)) ==>
              Sound(Written(pages, 1, entries), root, rightmost, LeftTree(n, entries)) && Items(LeftTree(n, entries)) == entries
    ensures n.Tip? ==> rightmost == 1
  {
    StoredRoutable(pages, n);
    StartsHere(pages, root, rightmost, n);
    if Sum(entries) <= ROOM {
      OneLeafSound(pages, root, rightmost, n, entries);
    }
  }

  /** Looks up one of the entries loaded into one leaf. */
  method FindLoaded(pages: Pages, root: nat, rightmost: nat, items: seq<Entry>, e: Entry, ghost n: Node) returns (r: Option<Entry>)
    requires Sound(pages, root, rightmost, n) && Items(n) == [] && Ordered(items) && Sum(items) <= ROOM && e in items
    requires 1 in pages && pages[1].Leaf?
    ensures Routable(pages, n) && (r == Some(e) <==> Left(pages, n, e.key)) && (r.None? <==> !Left(pages, n, e.key))
  {
    OneLeafSound(pages, root, rightmost, n, items);
    RoutableWritten(pages, n, 1, items, e.key);
    LeftIs(pages, n, e.key);
    AtLeaf(pages, n, e.key, e);
    r := Find(Written(pages, 1, items), root, e.key, n);
    FoundIs(pages, n, items, e, r);
  }

  /** What a lookup can come back with: the entry of the leaf, or nothing. */
  lemma FoundIs(pages: Pages, n: Node, items: seq<Entry>, e: Entry, r: Option<Entry>)
    requires T.Stored(pages, n) && Routable(pages, n) && Items(n) == [] && Ordered(items) && e in items && 1 in pages && pages[1].Leaf?
    requires Reaches(Written(pages, 1, items), n, e) <==> Left(pages, n, e.key)
    requires LeafFor(pages, n, e.key) == 1 <==> Left(pages, n, e.key)
    requires var pages' := Written(pages, 1, items);
             && Routable(pages', n) && LeafFor(pages', n, e.key) == LeafFor(pages, n, e.key)
             && var leaf := LeafFor(pages, n, e.key);
                && leaf in pages' && pages'[leaf].Leaf?
                && (r.Some? ==> r.value in pages'[leaf].entries && r.value.key == e.key) && (r.None? ==> !Holds(pages'[leaf].entries, e.key))
    ensures (r == Some(e) <==> Left(pages, n, e.key)) && (r.None? <==> !Left(pages, n, e.key))
  {
    if Left(pages, n, e.key) {
      OneEntry(items, e, r.value);
    } else if r.Some? {
      AtLeaf(pages, n, e.key, r.value);
      assert false;
    }
  }

  lemma OneEntry(items: seq<Entry>, e: Entry, f: Entry)
    requires Ordered(items) && e in items && f in items && e.key == f.key
    ensures e == f
  {
    var i :| 0 <= i < |items| && items[i] == e;
    var j :| 0 <= j < |items| && items[j] == f;
    Lex.Total(e.key, f.key);
  }

  /** Such a tree: two leaves emptied by deletes, and a key of the right one. */
  lemma EmptiedLoadMisses()
    ensures var pages, n, e := TwoLeaves([5]), Fork(3, [Tip(1, []), Tip(2, [])]), Raw([7], 0, []);
            Sound(pages, 3, 2, n) && Items(n) == [] && Storable(e) && Sum([e]) <= ROOM && !Reaches(Written(pages, 1, [e]), n, e)
  {
    var pages, n, e := TwoLeaves([5]), Fork(3, [Tip(1, []), Tip(2, [])]), Raw([7], 0, []);
    TwoLeavesSound([5]);
    assert Upto([e], 0) == 0 && Sum([e]) == Cost(e);
    OneLeafSound(pages, 3, 2, n, [e]);
    assert !Left(pages, n, e.key) by {
      assert pages[3].seps[0] == [5];
    }
    assert e in [e];
  }

  function TwoLeaves(sep: bytes): Pages {
    map[1 := Leaf([], 2, 0), 2 := Leaf([], 0, 1), 3 := Internal([1, 2], [sep])]
  }

  lemma TwoLeavesSound(sep: bytes)
    requires PER_CHILD + |sep| <= INNER
    ensures var n := Fork(3, [Tip(1, []), Tip(2, [])]); Sound(TwoLeaves(sep), 3, 2, n) && Items(n) == []
  {
    var pages, a, b := TwoLeaves(sep), Tip(1, []), Tip(2, []);
    var n := Fork(3, [a, b]);
    RootHolds(a, b);
    TwoLeavesStored(sep);
    TwoLeavesChained(sep);
  }

  lemma TwoLeavesStored(sep: bytes)
    ensures var n := Fork(3, [Tip(1, []), Tip(2, [])]); T.Stored(TwoLeaves(sep), n) && Apart(n)
  {
    var pages, a, b := TwoLeaves(sep), Tip(1, []), Tip(2, []);
    assert Apart(a) && Apart(b) && !Has(a, 3) && !Has(b, 3) && Disjoint(a, b);
    assert T.Stored(pages, a) && T.Stored(pages, b) && T.Between(sep, a, b);
  }

  lemma TwoLeavesChained(sep: bytes)
    requires PER_CHILD + |sep| <= INNER
    ensures Chained(TwoLeaves(sep), [1, 2]) && InSize(TwoLeaves(sep))
  {
    var pages := TwoLeaves(sep);
    assert [sep][..0] == [] && Used([sep]) == PER_CHILD + |sep|;
    assert Links(pages, [1, 2], 0) && Links(pages, [1, 2], 1);
  }

  /** A new tree loaded with the list. */
  method Load(items: seq<Entry>) returns (tree: Tree)
    requires Ordered(items) && forall i :: 0 <= i < |items| ==> Storable(items[i])
    ensures fresh(tree) && tree.Valid() && tree.Entries() == items
  {
    tree := new Tree();
    BulkPutSorted(tree, items);
  }

  /** Looking a key up in a loaded tree finds its entry exactly when it was loaded. */
  method LoadAndGet(items: seq<Entry>, key: bytes) returns (r: Option<Entry>)
    requires Ordered(items) && forall i :: 0 <= i < |items| ==> Storable(items[i])
    ensures r.Some? ==> r.value in items && r.value.key == key
    ensures r.None? ==> !Holds(items, key)
  {
    var tree := Load(items);
    r := tree.Get(key);
  }

  // ---- the chain lists the tree -----------------------------------------------------------------------------

  /** The entries met along a list of leaves. */
  ghost function Met(pages: Pages, leaves: seq<nat>): seq<Entry> {
    if leaves == [] then []
    else Met(pages, leaves[..|leaves| - 1]) + EntriesAt(pages, leaves[|leaves| - 1])
  }

  function EntriesAt(pages: Pages, p: nat): seq<Entry> {
    if p in pages && pages[p].Leaf? then pages[p].entries else []
  }

  lemma MetMore(pages: Pages, leaves: seq<nat>, p: nat)
    ensures Met(pages, leaves + [p]) == Met(pages, leaves) + EntriesAt(pages, p)
  {
    assert (leaves + [p])[..|leaves|] == leaves;
  }

  lemma {:induction false} MetSplit(pages: Pages, a: seq<nat>, b: seq<nat>)
    ensures Met(pages, a + b) == Met(pages, a) + Met(pages, b)
    decreases |b|
  {
    if b == [] {
      assert a + b == a;
    } else {
      var front, last := b[..|b| - 1], b[|b| - 1];
      MetSplit(pages, a, front);
      MetMore(pages, a + front, last);
      MetMore(pages, front, last);
      Associates(a, front, [last]);
      Associates(Met(pages, a), Met(pages, front), EntriesAt(pages, last));
      assert b == front + [last];
    }
  }

  lemma {:induction false} MetFirst(pages: Pages, nodes: seq<Node>)
    requires forall i :: 0 <= i < |nodes| ==> Met(pages, LeavesOf(nodes[i])) == Items(nodes[i])
    ensures Met(pages, LeavesIn(nodes)) == Concat(nodes)
  {
    if nodes != [] {
      var front, last := nodes[..|nodes| - 1], nodes[|nodes| - 1];
      MetFirst(pages, front);
      MetSplit(pages, LeavesIn(front), LeavesOf(last));
    }
  }

  /** Walking the chain of leaves of a valid tree meets its entries in order. */
  lemma {:induction false} ChainLists(pages: Pages, n: Node)
    requires T.Stored(pages, n)
    ensures Met(pages, LeavesOf(n)) == Items(n)
    decreases n
  {
    if n.Fork? {
      forall i | 0 <= i < |n.nodes| ensures Met(pages, LeavesOf(n.nodes[i])) == Items(n.nodes[i]) {
        ChainLists(pages, n.nodes[i]);
      }
      MetFirst(pages, n.nodes);
    } else {
      assert [n.page][..0] == [];
    }
  }
}
