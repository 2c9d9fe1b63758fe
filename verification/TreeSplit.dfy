/** A leaf split in two: the parent gains a separator and a child, and the chain of leaves a link. */
module TreeSplits {
  import opened Base
  import opened Bytes
  import opened LeafPages
  import opened BTrees
  import opened TreeEdits
  import T = BTrees
  import Lex

  /** Two halves with a separator between them. */
  ghost predicate Halved(left: seq<Entry>, sep: bytes, right: seq<Entry>) {
    && left != [] && right != [] && Ordered(left + right)
    && Lex.Less(left[|left| - 1].key, sep) && Lex.Leq(sep, right[0].key)
  }

  lemma HalvesBetween(p: nat, left: seq<Entry>, sep: bytes, q: nat, right: seq<Entry>)
    requires Halved(left, sep, right)
    ensures Ordered(left) && Ordered(right) && T.Between(sep, Tip(p, left), Tip(q, right))
  {
    var all := left + right;
    forall i, j | 0 <= i < j < |left| ensures Lex.Less(left[i].key, left[j].key) {
      assert all[i] == left[i] && all[j] == left[j];
    }
    forall i, j | 0 <= i < j < |right| ensures Lex.Less(right[i].key, right[j].key) {
      assert all[|left| + i] == right[i] && all[|left| + j] == right[j];
    }
    forall e | e in left ensures Lex.Less(e.key, sep) {
      var i :| 0 <= i < |left| && left[i] == e;
      Lex.LeqLess(e.key, left[|left| - 1].key, sep);
    }
    forall e | e in right ensures Lex.Leq(sep, e.key) {
      var i :| 0 <= i < |right| && right[i] == e;
      if i > 0 {
        Lex.LeqLess(sep, right[0].key, e.key);
      }
    }
  }

  // ---- the parent -----------------------------------------------------------------------------------

  /** What is below a child is routed to it. */
  lemma ItemRouted(pages: Pages, n: Node, i: nat, e: Entry)
    requires T.Stored(pages, n) && n.Fork? && i < |n.nodes| && e in Items(n.nodes[i])
    ensures Routes(pages[n.page].seps, e.key, i)
  {
    var seps := pages[n.page].seps;
    forall j | 0 <= j < i ensures Lex.Leq(seps[j], e.key) {
      assert T.Between(seps[i - 1], n.nodes[i - 1], n.nodes[i]);
      SepsOrder(seps, j, i - 1);
      if seps[j] != seps[i - 1] && seps[i - 1] != e.key {
        Lex.Transitive(seps[j], seps[i - 1], e.key);
      }
    }
    forall j | i <= j < |seps| ensures Lex.Less(e.key, seps[j]) {
      assert T.Between(seps[i], n.nodes[i], n.nodes[i + 1]);
      SepsOrder(seps, i, j);
      Lex.LeqLess(e.key, seps[i], seps[j]);
    }
  }

  lemma AscendingInserted(seps: seq<bytes>, a: bytes, sep: bytes, i: nat)
    requires Ascending(seps) && Routes(seps, a, i) && Lex.Less(a, sep) && Routes(seps, sep, i)
    ensures Ascending(Inserted(seps, i, sep))
  {
    var s := Inserted(seps, i, sep);
    forall x, y | 0 <= x < y < |s| ensures Lex.Less(s[x], s[y]) {
      if y == i {
        Lex.LeqLess(seps[x], a, sep);
      }
    }
  }

  /** The parent with the child `i`, a leaf, split in two. */
  function SplitFork(m: Node, i: nat, left: seq<Entry>, q: nat, right: seq<Entry>): Node
    requires m.Fork? && i < |m.nodes|
  {
    Fork(m.page, Inserted(m.nodes[i := Tip(m.nodes[i].page, left)], i + 1, Tip(q, right)))
  }

  /** The leaf below the parent and what it is split into. */
  ghost predicate Splitting(pages: Pages, m: Node, i: nat, left: seq<Entry>, sep: bytes, right: seq<Entry>, sub: seq<Entry>, key: bytes) {
    && T.Stored(pages, m) && m.Fork? && Apart(m) && i < |m.nodes| && m.nodes[i].Tip? && Routes(pages[m.page].seps, key, i)
    && Halved(left, sep, right) && Swapped(m.nodes[i].entries, sub, left + right, key)
  }

  lemma HalfRouted(pages: Pages, m: Node, i: nat, left: seq<Entry>, sep: bytes, right: seq<Entry>, sub: seq<Entry>, key: bytes, e: Entry)
    requires Splitting(pages, m, i, left, sep, right, sub, key) && e in left + right
    ensures Routes(pages[m.page].seps, e.key, i)
  {
    if e.key != key {
      ItemRouted(pages, m, i, e);
    }
  }

  lemma SplitSeps(pages: Pages, m: Node, i: nat, left: seq<Entry>, sep: bytes, right: seq<Entry>, sub: seq<Entry>, key: bytes)
    requires Splitting(pages, m, i, left, sep, right, sub, key)
    ensures Routes(pages[m.page].seps, sep, i) && Ascending(Inserted(pages[m.page].seps, i, sep))
  {
    var seps, a, b := pages[m.page].seps, left[|left| - 1], right[0];
    assert a in left + right && b in left + right;
    HalfRouted(pages, m, i, left, sep, right, sub, key, a);
    HalfRouted(pages, m, i, left, sep, right, sub, key, b);
    SeparatorRouted(seps, a.key, sep, b.key, i);
    AscendingInserted(seps, a.key, sep, i);
  }

  /**
   Where any key is routed once the leaf is split: as before, save that keys of the split child at or above the
   separator go to the new page.
   */
  lemma SplitRouted(pages: Pages, m: Node, i: nat, left: seq<Entry>, sep: bytes, q: nat, right: seq<Entry>, sub: seq<Entry>, key: bytes,
                    k: bytes, was: nat, now: nat)
    requires Splitting(pages, m, i, left, sep, right, sub, key)
    requires Routes(pages[m.page].seps, k, was) && Routes(Inserted(pages[m.page].seps, i, sep), k, now)
    ensures Inserted(pages[m.page].kids, i + 1, q)[now] == if was == i && Lex.Leq(sep, k) then q else pages[m.page].kids[was]
  {
    SplitSeps(pages, m, i, left, sep, right, sub, key);
    RouteInserted(pages[m.page].seps, pages[m.page].kids, sep, q, i, k, was, now);
  }

  lemma SplitBeside(pages: Pages, m: Node, i: nat, left: seq<Entry>, sep: bytes, q: nat, right: seq<Entry>, sub: seq<Entry>, key: bytes)
    requires Splitting(pages, m, i, left, sep, right, sub, key)
    ensures i > 0 ==> T.Between(pages[m.page].seps[i - 1], m.nodes[i - 1], Tip(m.nodes[i].page, left))
    ensures i < |m.nodes| - 1 ==> T.Between(pages[m.page].seps[i], Tip(q, right), m.nodes[i + 1])
  {
    var seps := pages[m.page].seps;
    if i > 0 {
      assert T.Between(seps[i - 1], m.nodes[i - 1], m.nodes[i]);
      forall e | e in left ensures Lex.Leq(seps[i - 1], e.key) {
        HalfRouted(pages, m, i, left, sep, right, sub, key, e);
      }
    }
    if i < |m.nodes| - 1 {
      assert T.Between(seps[i], m.nodes[i], m.nodes[i + 1]);
      forall e | e in right ensures Lex.Less(e.key, seps[i]) {
        HalfRouted(pages, m, i, left, sep, right, sub, key, e);
      }
    }
  }

  lemma SplitBetween(pages: Pages, m: Node, i: nat, left: seq<Entry>, sep: bytes, q: nat, right: seq<Entry>, sub: seq<Entry>, key: bytes, j: nat)
    requires Splitting(pages, m, i, left, sep, right, sub, key) && j < |m.nodes|
    ensures var n := SplitFork(m, i, left, q, right); T.Between(Inserted(pages[m.page].seps, i, sep)[j], n.nodes[j], n.nodes[j + 1])
  {
    var seps, p := pages[m.page].seps, m.nodes[i].page;
    if j == i {
      HalvesBetween(p, left, sep, q, right);
    } else if j + 1 == i || j == i + 1 {
      SplitBeside(pages, m, i, left, sep, q, right, sub, key);
    } else if j < i {
      assert T.Between(seps[j], m.nodes[j], m.nodes[j + 1]);
    } else {
      assert T.Between(seps[j - 1], m.nodes[j - 1], m.nodes[j]);
    }
  }

  /** The pages after the split, as far as the parent and its leaves go. */
  ghost predicate SplitPages(pages: Pages, pages': Pages, m: Node, i: nat, left: seq<Entry>, sep: bytes, q: nat, right: seq<Entry>)
    requires m.Fork? && i < |m.nodes|
  {
    var p := m.nodes[i].page;
    && m.page in pages && m.page in pages' && pages[m.page].Internal? && i < |pages[m.page].kids| && i <= |pages[m.page].seps|
    && pages'[m.page] == Internal(Inserted(pages[m.page].kids, i + 1, q), Inserted(pages[m.page].seps, i, sep))
    && p in pages' && pages'[p].Leaf? && pages'[p].entries == left
    && q !in pages && q in pages' && pages'[q].Leaf? && pages'[q].entries == right
  }

  lemma SplitChild(pages: Pages, pages': Pages, m: Node, i: nat, left: seq<Entry>, sep: bytes, q: nat, right: seq<Entry>, sub: seq<Entry>, key: bytes, j: nat)
    requires Splitting(pages, m, i, left, sep, right, sub, key) && SplitPages(pages, pages', m, i, left, sep, q, right)
    requires forall p :: Has(m, p) && p != m.page && p != m.nodes[i].page ==> Keeps(pages, pages', p)
    requires j <= |m.nodes|
    ensures var n := SplitFork(m, i, left, q, right); pages'[m.page].kids[j] == n.nodes[j].page && T.Stored(pages', n.nodes[j])
  {
    var n := SplitFork(m, i, left, q, right);
    if j == i || j == i + 1 {
      HalvesBetween(m.nodes[i].page, left, sep, q, right);
    } else {
      var k := if j < i then j else j - 1;
      assert n.nodes[j] == m.nodes[k];
      assert Disjoint(m.nodes[if i < k then i else k], m.nodes[if i < k then k else i]);
      assert Has(m.nodes[i], m.nodes[i].page);
      forall p | Has(m.nodes[k], p) ensures Keeps(pages, pages', p) {
        assert Has(m, p);
      }
      T.StoredKept(pages, pages', m.nodes[k]);
    }
  }

  lemma SplitStored(pages: Pages, pages': Pages, m: Node, i: nat, left: seq<Entry>, sep: bytes, q: nat, right: seq<Entry>, sub: seq<Entry>, key: bytes)
    requires Splitting(pages, m, i, left, sep, right, sub, key) && SplitPages(pages, pages', m, i, left, sep, q, right)
    requires forall p :: Has(m, p) && p != m.page && p != m.nodes[i].page ==> Keeps(pages, pages', p)
    ensures T.Stored(pages', SplitFork(m, i, left, q, right))
  {
    var n := SplitFork(m, i, left, q, right);
    SplitSeps(pages, m, i, left, sep, right, sub, key);
    forall j | 0 <= j < |n.nodes| ensures pages'[n.page].kids[j] == n.nodes[j].page && T.Stored(pages', n.nodes[j]) {
      SplitChild(pages, pages', m, i, left, sep, q, right, sub, key, j);
    }
    forall j, k | 0 <= j < k < |n.nodes| && k == j + 1 ensures T.Between(pages'[n.page].seps[j], n.nodes[j], n.nodes[k]) {
      SplitBetween(pages, m, i, left, sep, q, right, sub, key, j);
    }
  }

  lemma SplitApart(m: Node, i: nat, left: seq<Entry>, q: nat, right: seq<Entry>)
    requires m.Fork? && i < |m.nodes| && m.nodes[i].Tip? && Apart(m) && !Has(m, q)
    ensures Apart(SplitFork(m, i, left, q, right)) && forall p :: Has(SplitFork(m, i, left, q, right), p) ==> p == q || Has(m, p)
  {
    var n := SplitFork(m, i, left, q, right);
    forall j, p | 0 <= j < |n.nodes| && Has(n.nodes[j], p) ensures p == q || (Has(m, p) && p != m.page) {
      var k := if j <= i then j else j - 1;
      assert j != i + 1 ==> Has(m.nodes[k], p);
    }
    assert Has(m, m.page);
    forall j, k | 0 <= j < k < |n.nodes| ensures Disjoint(n.nodes[j], n.nodes[k]) {
      SplitDisjoint(m, i, left, q, right, j, k);
    }
  }

  lemma SplitDisjoint(m: Node, i: nat, left: seq<Entry>, q: nat, right: seq<Entry>, j: nat, k: nat)
    requires m.Fork? && i < |m.nodes| && m.nodes[i].Tip? && Apart(m) && !Has(m, q) && j < k <= |m.nodes|
    ensures var n := SplitFork(m, i, left, q, right); Disjoint(n.nodes[j], n.nodes[k])
  {
    var n := SplitFork(m, i, left, q, right);
    var x, y := if j <= i then j else j - 1, if k <= i then k else k - 1;
    assert x < y ==> Disjoint(m.nodes[x], m.nodes[y]);
    forall p ensures !(Has(n.nodes[j], p) && Has(n.nodes[k], p)) {
      assert Has(m.nodes[x], p) || Has(m.nodes[y], p) ==> Has(m, p);
      assert j != i + 1 ==> Has(n.nodes[j], p) == Has(m.nodes[x], p);
      assert k != i + 1 ==> Has(n.nodes[k], p) == Has(m.nodes[y], p);
      assert j == i + 1 ==> (Has(n.nodes[j], p) <==> p == q);
      assert k == i + 1 ==> (Has(n.nodes[k], p) <==> p == q);
    }
  }

  lemma SplitSwapped(pages: Pages, m: Node, i: nat, left: seq<Entry>, sep: bytes, q: nat, right: seq<Entry>, sub: seq<Entry>, key: bytes)
    requires Splitting(pages, m, i, left, sep, right, sub, key)
    ensures Swapped(Items(m), sub, Items(SplitFork(m, i, left, q, right)), key)
  {
    var n := SplitFork(m, i, left, q, right);
    var c := Tip(m.nodes[i].page, left + right);
    ChildSwapped(pages, m, key, i, c, sub);
    forall f ensures f in Concat(n.nodes) <==> f in Concat(m.nodes[i := c]) {
      SplitSame(m, i, left, q, right, f);
    }
  }

  lemma SplitSame(m: Node, i: nat, left: seq<Entry>, q: nat, right: seq<Entry>, f: Entry)
    requires m.Fork? && i < |m.nodes|
    ensures var c := Tip(m.nodes[i].page, left + right);
            f in Concat(SplitFork(m, i, left, q, right).nodes) <==> f in Concat(m.nodes[i := c])
  {
    var a, b := SplitFork(m, i, left, q, right).nodes, m.nodes[i := Tip(m.nodes[i].page, left + right)];
    InConcat(a, f);
    InConcat(b, f);
    if f in Concat(a) {
      var j :| 0 <= j < |a| && f in Items(a[j]);
      assert f in Items(b[if j <= i then j else j - 1]);
    }
    if f in Concat(b) {
      var j :| 0 <= j < |b| && f in Items(b[j]);
      assert f in Items(a[if j < i then j else if j > i then j + 1 else if f in left then i else i + 1]);
    }
  }

  /** The split parent takes the place of the parent anywhere in a tree. */
  lemma SplitReplaces(pages: Pages, pages': Pages, n: Node, m: Node, i: nat, left: seq<Entry>, sep: bytes, q: nat, right: seq<Entry>,
                      sub: seq<Entry>, key: bytes)
    requires Splitting(pages, m, i, left, sep, right, sub, key) && SplitPages(pages, pages', m, i, left, sep, q, right)
    requires (forall p :: Has(m, p) ==> Has(n, p)) && (forall p :: Has(n, p) ==> p in pages)
    requires forall p :: Has(n, p) && p != m.page && p != m.nodes[i].page ==> Keeps(pages, pages', p)
    ensures Replaces(pages, pages', n, m, SplitFork(m, i, left, q, right), sub, key)
  {
    assert Has(m, m.page) && Has(m.nodes[i], m.nodes[i].page);
    assert Has(m, m.nodes[i].page);
    SplitStored(pages, pages', m, i, left, sep, q, right, sub, key);
    SplitApart(m, i, left, q, right);
    SplitSwapped(pages, m, i, left, sep, q, right, sub, key);
  }

  /** A leaf that was the root, split below a new root. */
  lemma RootSplit(pages': Pages, p: nat, left: seq<Entry>, sep: bytes, q: nat, right: seq<Entry>, top: nat)
    requires Halved(left, sep, right) && p != q && p != top && q != top
    requires p in pages' && pages'[p].Leaf? && pages'[p].entries == left && q in pages' && pages'[q].Leaf? && pages'[q].entries == right
    requires top in pages' && pages'[top] == Internal([p, q], [sep])
    ensures var n := Fork(top, [Tip(p, left), Tip(q, right)]);
            T.Stored(pages', n) && Apart(n) && Items(n) == left + right && LeavesOf(n) == [p, q]
  {
    var a, b := Tip(p, left), Tip(q, right);
    HalvesBetween(p, left, sep, q, right);
    assert Apart(a) && Apart(b) && !Has(a, top) && !Has(b, top) && Disjoint(a, b);
    RootHolds(a, b);
  }

  lemma RootHolds(a: Node, b: Node)
    ensures Concat([a, b]) == Items(a) + Items(b) && LeavesIn([a, b]) == LeavesOf(a) + LeavesOf(b)
  {
    assert [a] + [b] == [a, b] && [] + [a] == [a];
    ConcatMore([a], b);
    ConcatMore([], a);
    LeavesSplit([a], [b]);
    LeavesOne(a);
    LeavesOne(b);
  }

  // ---- the chain of leaves ------------------------------------------------------------------------------

  /** The leaf is linked to its neighbours in the list; zero stands for none. */
  ghost predicate Links(pages: Pages, ls: seq<nat>, i: nat)
    requires i < |ls|
  {
    && ls[i] in pages && pages[ls[i]].Leaf?
    && pages[ls[i]].prev == (if i == 0 then 0 else ls[i - 1])
    && pages[ls[i]].next == (if i == |ls| - 1 then 0 else ls[i + 1])
  }

  /** The leaves are chained in both directions. */
  ghost predicate Chained(pages: Pages, ls: seq<nat>) {
    && ls != [] && (forall i, j :: 0 <= i < j < |ls| ==> ls[i] != ls[j])
    && (forall i :: 0 <= i < |ls| ==> Links(pages, ls, i))
  }

  /** The page is a leaf, and so is another one after it, if there is one. */
  predicate Linkable(pages: Pages, p: nat) {
    && p in pages && pages[p].Leaf?
    && (pages[p].next != 0 ==> pages[p].next in pages && pages[pages[p].next].Leaf? && pages[p].next != p)
  }

  /** The new page between a leaf and the one after it. */
  function Relinked(pages: Pages, p: nat, left: seq<Entry>, q: nat, right: seq<Entry>): Pages
    requires Linkable(pages, p)
  {
    var after := pages[p].next;
    var halves := pages[p := Leaf(left, q, pages[p].prev)][q := Leaf(right, after, p)];
    if after != 0 && after != q then halves[after := pages[after].(prev := q)] else halves
  }

  lemma ChainSplit(pages: Pages, ls: seq<nat>, k: nat, left: seq<Entry>, q: nat, right: seq<Entry>)
    requires Chained(pages, ls) && k < |ls| && 0 !in pages && q !in pages && q != 0
    ensures Linkable(pages, ls[k]) && Chained(Relinked(pages, ls[k], left, q, right), Inserted(ls, k + 1, q))
    ensures forall p :: p in pages && p != ls[k] ==> Keeps(pages, Relinked(pages, ls[k], left, q, right), p)
  {
    assert Links(pages, ls, k);
    if k < |ls| - 1 {
      assert Links(pages, ls, k + 1);
    }
    var pages', ls' := Relinked(pages, ls[k], left, q, right), Inserted(ls, k + 1, q);
    forall i | 0 <= i < |ls'| ensures Links(pages', ls', i) {
      ChainSplitAt(pages, ls, k, left, q, right, i);
    }
    forall i, j | 0 <= i < j < |ls'| ensures ls'[i] != ls'[j] {
      assert i < |ls| && i != k + 1 ==> Links(pages, ls, if i <= k then i else i - 1);
      assert j != k + 1 ==> Links(pages, ls, if j <= k then j else j - 1);
    }
  }

  lemma ChainSplitAt(pages: Pages, ls: seq<nat>, k: nat, left: seq<Entry>, q: nat, right: seq<Entry>, i: nat)
    requires Chained(pages, ls) && k < |ls| && 0 !in pages && q !in pages && q != 0 && i <= |ls|
    requires Links(pages, ls, k) && (k < |ls| - 1 ==> Links(pages, ls, k + 1))
    ensures Links(Relinked(pages, ls[k], left, q, right), Inserted(ls, k + 1, q), i)
  {
    if i != k + 1 {
      assert Links(pages, ls, if i <= k then i else i - 1);
    }
  }

  /** Writing to a leaf without touching its links. */
  lemma ChainWritten(pages: Pages, ls: seq<nat>, p: nat, entries: seq<Entry>)
    requires Chained(pages, ls) && p in pages && pages[p].Leaf?
    ensures Chained(pages[p := pages[p].(entries := entries)], ls)
  {
    var pages' := pages[p := pages[p].(entries := entries)];
    forall i | 0 <= i < |ls| ensures Links(pages', ls, i) {
      assert Links(pages, ls, i);
    }
  }

  /** A chain does not care about other pages. */
  lemma ChainKept(pages: Pages, ls: seq<nat>, p: nat, page: Page)
    requires Chained(pages, ls) && p !in ls
    ensures Chained(pages[p := page], ls)
  {
    var pages' := pages[p := page];
    forall i | 0 <= i < |ls| ensures Links(pages', ls, i) {
      assert Links(pages, ls, i) && ls[i] in ls;
    }
  }
}
