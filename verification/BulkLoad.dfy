/** Loading a tree bottom up: leaves first, then one internal level after another. */
module BulkLoads {
  import opened Base
  import opened Bytes
  import opened LeafPages
  import opened LeafSplits
  import T = BTrees
  import opened BTrees
  import opened TreeEdits
  import opened TreeSplits
  import opened Trees
  import Lex

  /** A page that is not in use. */
  predicate Unused(pages: Pages, p: nat) {
    p !in pages && p != 0
  }

  lemma {:induction false} Bound(s: set<nat>) returns (n: nat)
    ensures forall p :: p in s ==> p < n
    decreases s
  {
    n := 0;
    if s != {} {
      var p :| p in s;
      var rest := s - {p};
      var m := Bound(rest);
      n := if p < m then m else p + 1;
      forall q | q in s ensures q < n {
        assert q != p ==> q in rest;
      }
    }
  }

  /** Whatever unused page the file has to offer. */
  method Allocate(pages: Pages) returns (p: nat)
    ensures Unused(pages, p)
  {
    SomeUnused(pages);
    p :| Unused(pages, p);
  }

  /** There always is one. */
  lemma SomeUnused(pages: Pages)
    ensures exists p: nat :: Unused(pages, p)
  {
    var n := Bound(pages.Keys);
    assert Unused(pages, n + 1);
  }

  function First(n: Node): bytes
    requires Items(n) != []
  {
    Items(n)[0].key
  }

  function Last(n: Node): bytes
    requires Items(n) != []
  {
    Items(n)[|Items(n)| - 1].key
  }

  // ---- order across siblings -----------------------------------------------------------------

  lemma Associates<E>(a: seq<E>, b: seq<E>, c: seq<E>)
    ensures (a + b) + c == a + (b + c)
  {
  }

  lemma {:induction false} ConcatSplit(a: seq<Node>, b: seq<Node>)
    ensures Concat(a + b) == Concat(a) + Concat(b)
    decreases |b|, 1
  {
    if b == [] {
      assert a + b == a;
    } else {
      ConcatLast(a, b[..|b| - 1], b[|b| - 1]);
      assert b == b[..|b| - 1] + [b[|b| - 1]];
    }
  }

  lemma {:induction false} ConcatLast(a: seq<Node>, front: seq<Node>, last: Node)
    ensures Concat(a + (front + [last])) == Concat(a) + Concat(front + [last])
    decreases |front| + 1, 0
  {
    ConcatSplit(a, front);
    Associates(a, front, [last]);
    ConcatMore(a + front, last);
    ConcatMore(front, last);
    Associates(Concat(a), Concat(front), Items(last));
  }

  lemma ConcatCut(nodes: seq<Node>, i: nat)
    requires i <= |nodes|
    ensures Concat(nodes) == Concat(nodes[..i]) + Concat(nodes[i..])
  {
    ConcatSplit(nodes[..i], nodes[i..]);
    assert nodes[..i] + nodes[i..] == nodes;
  }

  lemma InConcatAt(nodes: seq<Node>, i: nat, e: Entry)
    requires i < |nodes| && e in Items(nodes[i])
    ensures e in Concat(nodes)
  {
    InConcat(nodes, e);
  }

  lemma OrderedHalves(a: seq<Entry>, b: seq<Entry>, e: Entry, f: Entry)
    requires Ordered(a + b) && e in a && f in b
    ensures Lex.Less(e.key, f.key) && Ordered(a)
  {
    var x :| 0 <= x < |a| && a[x] == e;
    var y :| 0 <= y < |b| && b[y] == f;
    assert (a + b)[x] == e && (a + b)[|a| + y] == f;
    forall i, j | 0 <= i < j < |a| ensures Lex.Less(a[i].key, a[j].key) {
      assert (a + b)[i] == a[i] && (a + b)[j] == a[j];
    }
  }

  /** Everything below an earlier sibling comes before everything below a later one. */
  lemma InOrder(nodes: seq<Node>, i: nat, e: Entry, f: Entry)
    requires Ordered(Concat(nodes)) && 0 < i < |nodes| && e in Items(nodes[i - 1]) && f in Items(nodes[i])
    ensures Lex.Less(e.key, f.key)
  {
    var a, b := nodes[..i], nodes[i..];
    ConcatCut(nodes, i);
    InConcatAt(a, i - 1, e);
    InConcatAt(b, 0, f);
    OrderedHalves(Concat(a), Concat(b), e, f);
  }

  lemma EndsOf(entries: seq<Entry>, e: Entry)
    requires Ordered(entries) && e in entries
    ensures Lex.Leq(entries[0].key, e.key) && Lex.Leq(e.key, entries[|entries| - 1].key)
  {
    var x :| 0 <= x < |entries| && entries[x] == e;
  }

  lemma MakesBetween(sep: bytes, a: Node, b: Node)
    requires Items(a) != [] && Items(b) != [] && Ordered(Items(a)) && Ordered(Items(b))
    requires Lex.Less(Last(a), sep) && Lex.Leq(sep, First(b))
    ensures T.Between(sep, a, b)
  {
    forall e | e in Items(a) ensures Lex.Less(e.key, sep) {
      EndsOf(Items(a), e);
      Lex.LeqLess(e.key, Last(a), sep);
    }
    forall e | e in Items(b) ensures Lex.Leq(sep, e.key) {
      EndsOf(Items(b), e);
      if First(b) != e.key {
        Lex.LeqLess(sep, First(b), e.key);
      }
    }
  }

  // ---- apart -----------------------------------------------------------------------------------

  /** No page occurs twice below these nodes. */
  ghost predicate Separate(nodes: seq<Node>) {
    && (forall i :: 0 <= i < |nodes| ==> Apart(nodes[i]))
    && (forall i, j :: 0 <= i < j < |nodes| ==> Disjoint(nodes[i], nodes[j]))
  }

  lemma GroupApart(a: seq<Node>, group: seq<Node>, b: seq<Node>, current: nat)
    requires Separate(a + group + b) && forall i :: 0 <= i < |a + group + b| ==> !Has((a + group + b)[i], current)
    ensures Apart(Fork(current, group)) && Separate(a + [Fork(current, group)] + b)
  {
    var all, fork := a + group + b, Fork(current, group);
    forall i | 0 <= i < |group| ensures Apart(group[i]) && !Has(group[i], current) {
      assert group[i] == all[|a| + i];
    }
    forall i, j | 0 <= i < j < |group| ensures Disjoint(group[i], group[j]) {
      assert group[i] == all[|a| + i] && group[j] == all[|a| + j];
    }
    var r := a + [fork] + b;
    forall i, j | 0 <= i < j < |r| ensures Disjoint(r[i], r[j]) {
      GroupDisjoint(a, group, b, current, i, j);
    }
    forall i | 0 <= i < |r| ensures Apart(r[i]) {
      if i < |a| {
        assert r[i] == all[i];
      } else if i > |a| {
        assert r[i] == all[i + |group| - 1];
      }
    }
  }

  lemma GroupDisjoint(a: seq<Node>, group: seq<Node>, b: seq<Node>, current: nat, i: nat, j: nat)
    requires Separate(a + group + b) && forall i :: 0 <= i < |a + group + b| ==> !Has((a + group + b)[i], current)
    requires i < j < |a| + 1 + |b|
    ensures var r := a + [Fork(current, group)] + b; Disjoint(r[i], r[j])
  {
    var all, r := a + group + b, a + [Fork(current, group)] + b;
    var x, y := if i <= |a| then i else i + |group| - 1, if j <= |a| then j else j + |group| - 1;
    if i != |a| && j != |a| {
      assert r[i] == all[x] && r[j] == all[y];
    } else {
      var k := if i == |a| then y else x;
      var other := if i == |a| then r[j] else r[i];
      assert other == all[k];
      forall p ensures !(Has(Fork(current, group), p) && Has(other, p)) {
        if Has(Fork(current, group), p) && p != current {
          var z :| 0 <= z < |group| && Has(group[z], p);
          assert group[z] == all[|a| + z];
          assert Disjoint(all[if k < |a| + z then k else |a| + z], all[if k < |a| + z then |a| + z else k]);
        }
      }
    }
  }

  // ---- one level -----------------------------------------------------------------------------------

  /** A subtree, its page, and the keys that bound it. */
  ghost predicate Child(pages: Pages, n: Node, page: nat, first: bytes, last: bytes) {
    && n.page == page && T.Stored(pages, n) && Items(n) != [] && First(n) == first && Last(n) == last && |last| <= MAX_KEY
  }

  ghost predicate Level(pages: Pages, nodes: seq<Node>, children: seq<nat>, firsts: seq<bytes>, lasts: seq<bytes>) {
    && |nodes| == |children| == |firsts| == |lasts| >= 1 && Ordered(Concat(nodes)) && Separate(nodes)
    && (forall i {:trigger nodes[i]} :: 0 <= i < |nodes| ==> Child(pages, nodes[i], children[i], firsts[i], lasts[i]))
  }

  lemma Neighbours(pages: Pages, nodes: seq<Node>, children: seq<nat>, firsts: seq<bytes>, lasts: seq<bytes>, i: nat)
    requires Level(pages, nodes, children, firsts, lasts) && 0 < i < |nodes|
    ensures Lex.Less(lasts[i - 1], firsts[i]) && |lasts[i - 1]| <= MAX_KEY
  {
    var a, b := nodes[i - 1], nodes[i];
    assert Child(pages, a, children[i - 1], firsts[i - 1], lasts[i - 1]) && Child(pages, b, children[i], firsts[i], lasts[i]);
    InOrder(nodes, i, Items(a)[|Items(a)| - 1], Items(b)[0]);
  }

  lemma Separates(pages: Pages, nodes: seq<Node>, children: seq<nat>, firsts: seq<bytes>, lasts: seq<bytes>, i: nat, sep: bytes)
    requires Level(pages, nodes, children, firsts, lasts) && 0 < i < |nodes| && Lex.Less(lasts[i - 1], sep) && Lex.Leq(sep, firsts[i])
    ensures T.Between(sep, nodes[i - 1], nodes[i])
  {
    assert Child(pages, nodes[i - 1], children[i - 1], firsts[i - 1], lasts[i - 1]);
    assert Child(pages, nodes[i], children[i], firsts[i], lasts[i]);
    OrderedPart(nodes, i - 1);
    OrderedPart(nodes, i);
    MakesBetween(sep, nodes[i - 1], nodes[i]);
  }

  ghost predicate Fits(used: nat, sep: bytes) {
    used + PER_CHILD + |sep| <= INNER
  }

  /** No separator between the keys `a` and `b` fits an internal page of which `used` bytes are taken. */
  ghost predicate Crowds(used: nat, a: bytes, b: bytes) {
    forall sep {:trigger Fits(used, sep)} :: Lex.Less(a, sep) && Lex.Leq(sep, b) ==> !Fits(used, sep)
  }

  /** The child at `i`, if there is one, has no room in the page. */
  ghost predicate Closed(firsts: seq<bytes>, lasts: seq<bytes>, i: nat, used: nat) {
    0 < i < |firsts| && i < |lasts| ==> Crowds(used, lasts[i - 1], firsts[i])
  }

  /** The separator between neighbours; one always fits an empty internal page. */
  method SeparatorAt(pages: Pages, children: seq<nat>, firsts: seq<bytes>, lasts: seq<bytes>, i: nat, ghost used: nat, ghost nodes: seq<Node>)
    returns (sep: bytes)
    requires Level(pages, nodes, children, firsts, lasts) && 0 < i < |nodes|
    ensures T.Between(sep, nodes[i - 1], nodes[i]) && PER_CHILD + |sep| <= INNER
    ensures used + PER_CHILD + |sep| > INNER ==> Closed(firsts, lasts, i, used)
  {
    Neighbours(pages, nodes, children, firsts, lasts, i);
    sep := Lex.TruncatedSeparator(lasts[i - 1], firsts[i]);
    Separates(pages, nodes, children, firsts, lasts, i, sep);
  }

  /** The separators of one internal page over the nodes from `start` on. */
  ghost predicate Grouped(nodes: seq<Node>, start: nat, seps: seq<bytes>) {
    && start + |seps| < |nodes|
    && forall j :: 0 <= j < |seps| ==> T.Between(seps[j], nodes[start + j], nodes[start + j + 1])
  }

  lemma GroupedMore(nodes: seq<Node>, start: nat, seps: seq<bytes>, sep: bytes)
    requires Grouped(nodes, start, seps) && start + |seps| + 1 < |nodes|
    requires T.Between(sep, nodes[start + |seps|], nodes[start + |seps| + 1])
    ensures Grouped(nodes, start, seps + [sep])
  {
  }

  lemma UsedMore(seps: seq<bytes>, sep: bytes)
    ensures Used(seps + [sep]) == Used(seps) + PER_CHILD + |sep|
  {
    assert (seps + [sep])[..|seps|] == seps;
  }

  lemma NoneLeft(firsts: seq<bytes>, lasts: seq<bytes>, i: nat, used: nat)
    requires i >= |firsts|
    ensures Closed(firsts, lasts, i, used)
  {
  }

  /** Packs children from `start` on into one internal page while they fit; two always do. */
  method BuildGroup(pages: Pages, children: seq<nat>, firsts: seq<bytes>, lasts: seq<bytes>, start: nat, ghost nodes: seq<Node>)
    returns (seps: seq<bytes>)
    requires Level(pages, nodes, children, firsts, lasts) && start < |nodes|
    ensures Grouped(nodes, start, seps) && (start + 1 < |nodes| ==> |seps| >= 1) && Used(seps) <= INNER
    ensures Closed(firsts, lasts, start + |seps| + 1, Used(seps))
  {
    seps := [];
    var used, i := 0, start + 1;
    while i < |children|
      invariant i == start + |seps| + 1 && Grouped(nodes, start, seps) && used == Used(seps) <= INNER
      decreases |children| - i
    {
      var sep := SeparatorAt(pages, children, firsts, lasts, i, used, nodes);
      if used + PER_CHILD + |sep| > INNER {
        return;
      }
      GroupedMore(nodes, start, seps, sep);
      UsedMore(seps, sep);
      seps, used, i := seps + [sep], used + PER_CHILD + |sep|, i + 1;
    }
    NoneLeft(firsts, lasts, i, used);
  }

  lemma {:induction false} GroupAscends(pages: Pages, nodes: seq<Node>, children: seq<nat>, firsts: seq<bytes>, lasts: seq<bytes>,
                                        start: nat, seps: seq<bytes>, i: nat, j: nat)
    requires Level(pages, nodes, children, firsts, lasts) && Grouped(nodes, start, seps) && i < j < |seps|
    ensures Lex.Less(seps[i], seps[j])
    decreases j
  {
    var n := nodes[start + j];
    assert Child(pages, n, children[start + j], firsts[start + j], lasts[start + j]);
    assert T.Between(seps[j - 1], nodes[start + (j - 1)], nodes[start + (j - 1) + 1]) && T.Between(seps[j], nodes[start + j], nodes[start + j + 1]);
    var e := Items(n)[0];
    assert e in Items(n);
    Lex.LeqLess(seps[j - 1], e.key, seps[j]);
    if i < j - 1 {
      GroupAscends(pages, nodes, children, firsts, lasts, start, seps, i, j - 1);
      Lex.Transitive(seps[i], seps[j - 1], seps[j]);
    }
  }

  lemma GroupAscending(pages: Pages, nodes: seq<Node>, children: seq<nat>, firsts: seq<bytes>, lasts: seq<bytes>, start: nat, seps: seq<bytes>)
    requires Level(pages, nodes, children, firsts, lasts) && Grouped(nodes, start, seps)
    ensures Ascending(seps)
  {
    forall i, j | 0 <= i < j < |seps| ensures Lex.Less(seps[i], seps[j]) {
      GroupAscends(pages, nodes, children, firsts, lasts, start, seps, i, j);
    }
  }

  lemma GroupMember(pages: Pages, nodes: seq<Node>, children: seq<nat>, firsts: seq<bytes>, lasts: seq<bytes>, i: nat, pages': Pages)
    requires Level(pages, nodes, children, firsts, lasts) && i < |nodes| && Extends(pages, pages')
    ensures children[i] == nodes[i].page && T.Stored(pages', nodes[i])
  {
    assert Child(pages, nodes[i], children[i], firsts[i], lasts[i]);
    StoredGrows(pages, pages', nodes[i]);
  }

  /** The node of an internal page over some of the nodes of a level. */
  lemma ForkStored(pages: Pages, nodes: seq<Node>, children: seq<nat>, firsts: seq<bytes>, lasts: seq<bytes>,
                   start: nat, seps: seq<bytes>, current: nat, end: nat, pages': Pages)
    requires Level(pages, nodes, children, firsts, lasts) && Grouped(nodes, start, seps) && current !in pages && end == start + |seps| + 1
    requires pages' == pages[current := Internal(children[start..end], seps)]
    ensures Child(pages', Fork(current, nodes[start..end]), current, firsts[start], lasts[end - 1])
  {
    var kids, group := children[start..end], nodes[start..end];
    forall i | 0 <= i < |group| ensures kids[i] == group[i].page && T.Stored(pages', group[i]) {
      assert group[i] == nodes[start + i];
      GroupMember(pages, nodes, children, firsts, lasts, start + i, pages');
    }
    forall i, j | 0 <= i < j < |group| && j == i + 1 ensures T.Between(seps[i], group[i], group[j]) {
      assert group[i] == nodes[start + i] && group[j] == nodes[start + i + 1];
    }
    GroupAscending(pages, nodes, children, firsts, lasts, start, seps);
    GroupEnds(pages, nodes, children, firsts, lasts, start, end);
  }

  lemma GroupEnds(pages: Pages, nodes: seq<Node>, children: seq<nat>, firsts: seq<bytes>, lasts: seq<bytes>, start: nat, end: nat)
    requires Level(pages, nodes, children, firsts, lasts) && start < end <= |nodes|
    ensures var items := Concat(nodes[start..end]);
            items != [] && items[0].key == firsts[start] && items[|items| - 1].key == lasts[end - 1] && |lasts[end - 1]| <= MAX_KEY
  {
    var group := nodes[start..end];
    assert Child(pages, nodes[start], children[start], firsts[start], lasts[start]);
    assert Child(pages, nodes[end - 1], children[end - 1], firsts[end - 1], lasts[end - 1]);
    ConcatCut(group, 1);
    assert group[..1] == [nodes[start]];
    ConcatMore([], nodes[start]);
    assert [] + [nodes[start]] == [nodes[start]];
    assert group[|group| - 1] == nodes[end - 1];
  }

  /** Pages and their bounds, one per node. */
  ghost predicate Row(pages: Pages, nodes: seq<Node>, children: seq<nat>, firsts: seq<bytes>, lasts: seq<bytes>) {
    && |nodes| == |children| == |firsts| == |lasts|
    && (forall i {:trigger nodes[i]} :: 0 <= i < |nodes| ==> Child(pages, nodes[i], children[i], firsts[i], lasts[i]))
  }

  ghost predicate Extends(pages: Pages, pages': Pages) {
    forall p :: p in pages ==> p in pages' && pages'[p] == pages[p]
  }

  lemma RowGrows(pages: Pages, pages': Pages, nodes: seq<Node>, children: seq<nat>, firsts: seq<bytes>, lasts: seq<bytes>)
    requires Row(pages, nodes, children, firsts, lasts) && Extends(pages, pages')
    ensures Row(pages', nodes, children, firsts, lasts)
  {
    forall i | 0 <= i < |nodes| ensures Child(pages', nodes[i], children[i], firsts[i], lasts[i]) {
      StoredGrows(pages, pages', nodes[i]);
    }
  }

  lemma RowMore(pages: Pages, nodes: seq<Node>, children: seq<nat>, firsts: seq<bytes>, lasts: seq<bytes>,
                n: Node, c: nat, f: bytes, l: bytes)
    requires Row(pages, nodes, children, firsts, lasts) && Child(pages, n, c, f, l)
    ensures Row(pages, nodes + [n], children + [c], firsts + [f], lasts + [l])
  {
  }

  lemma ConcatTaken(a: seq<Node>, b: seq<Node>, done: seq<Node>, current: nat)
    requires Concat(done) == Concat(a)
    ensures Concat(done + [Fork(current, b)]) == Concat(a + b)
  {
    ConcatMore(done, Fork(current, b));
    ConcatSplit(a, b);
  }

  lemma Slices(nodes: seq<Node>, start: nat, end: nat)
    requires start <= end <= |nodes|
    ensures nodes[..start] + nodes[start..end] == nodes[..end]
  {
  }

  /** One internal page: allocated, filled with as many children as fit, and recorded for the level above. */
  method PackPage(pages: Pages, children: seq<nat>, firsts: seq<bytes>, lasts: seq<bytes>, start: nat, ghost nodes: seq<Node>)
    returns (pages': Pages, current: nat, end: nat)
    requires Level(pages, nodes, children, firsts, lasts) && InSize(pages) && start < |nodes|
    ensures Extends(pages, pages') && InSize(pages') && Unused(pages, current)
    ensures start < end <= |nodes| && (end < |nodes| ==> start + 2 <= end)
    ensures Child(pages', Fork(current, nodes[start..end]), current, firsts[start], lasts[end - 1])
  {
    current := Allocate(pages);
    var seps := BuildGroup(pages, children, firsts, lasts, start, nodes);
    end := start + |seps| + 1;
    pages' := pages[current := Internal(children[start..end], seps)];
    ForkStored(pages, nodes, children, firsts, lasts, start, seps, current, end, pages');
    PageAdded(pages, current, children[start..end], seps);
  }

  lemma PageAdded(pages: Pages, current: nat, kids: seq<nat>, seps: seq<bytes>)
    requires InSize(pages) && Unused(pages, current) && Used(seps) <= INNER
    ensures var pages' := pages[current := Internal(kids, seps)]; Extends(pages, pages') && InSize(pages')
  {
  }

  /** Pages are within their sizes, and zero is none of them. */
  ghost predicate InSize(pages: Pages) {
    AllSized(pages) && 0 !in pages
  }

  /** The state of a level under construction: the first `i` nodes are below `built`. */
  ghost predicate Building(pages: Pages, nodes: seq<Node>, i: nat, built: seq<Node>, children: seq<nat>, firsts: seq<bytes>, lasts: seq<bytes>) {
    && i <= |nodes| && Row(pages, built, children, firsts, lasts) && Concat(built) == Concat(nodes[..i])
    && LeavesIn(built) == LeavesIn(nodes[..i]) && Separate(built + nodes[i..])
    && (if i < |nodes| then 2 * |built| <= i else 2 * |built| <= i + 1) && (i > 0 ==> built != [])
  }

  lemma BuildingMore(pages: Pages, pages': Pages, nodes: seq<Node>, i: nat, built: seq<Node>, children: seq<nat>, firsts: seq<bytes>, lasts: seq<bytes>,
                     end: nat, current: nat, f: bytes, l: bytes)
    requires Building(pages, nodes, i, built, children, firsts, lasts) && Extends(pages, pages') && Unused(pages, current)
    requires forall j :: 0 <= j < |nodes| ==> T.Stored(pages, nodes[j])
    requires i < end <= |nodes| && (end < |nodes| ==> i + 2 <= end) && Child(pages', Fork(current, nodes[i..end]), current, f, l)
    ensures Building(pages', nodes, end, built + [Fork(current, nodes[i..end])], children + [current], firsts + [f], lasts + [l])
  {
    RowGrows(pages, pages', built, children, firsts, lasts);
    RowMore(pages', built, children, firsts, lasts, Fork(current, nodes[i..end]), current, f, l);
    ConcatTaken(nodes[..i], nodes[i..end], built, current);
    LeavesTaken(nodes[..i], nodes[i..end], built, current);
    Slices(nodes, i, end);
    BuildingApart(pages, nodes, i, built, children, firsts, lasts, end, current);
  }

  lemma LeavesTaken(a: seq<Node>, b: seq<Node>, done: seq<Node>, current: nat)
    requires LeavesIn(done) == LeavesIn(a)
    ensures LeavesIn(done + [Fork(current, b)]) == LeavesIn(a + b)
  {
    LeavesSplit(done, [Fork(current, b)]);
    LeavesOne(Fork(current, b));
    LeavesSplit(a, b);
  }

  lemma BuildingApart(pages: Pages, nodes: seq<Node>, i: nat, built: seq<Node>, children: seq<nat>, firsts: seq<bytes>, lasts: seq<bytes>,
                      end: nat, current: nat)
    requires Building(pages, nodes, i, built, children, firsts, lasts) && Unused(pages, current) && i < end <= |nodes|
    requires forall j :: 0 <= j < |nodes| ==> T.Stored(pages, nodes[j])
    ensures Separate(built + [Fork(current, nodes[i..end])] + nodes[end..])
  {
    var all := built + nodes[i..end] + nodes[end..];
    assert all == built + nodes[i..];
    forall j | 0 <= j < |all| ensures !Has(all[j], current) {
      if Has(all[j], current) {
        if j < |built| {
          assert Child(pages, built[j], children[j], firsts[j], lasts[j]);
        }
        HasStored(pages, all[j], current);
      }
    }
    GroupApart(built, nodes[i..end], nodes[end..], current);
  }

  /** Builds the level above: every page but possibly the last takes at least two children. */
  method BuildLevel(pages: Pages, children: seq<nat>, firsts: seq<bytes>, lasts: seq<bytes>, ghost nodes: seq<Node>)
    returns (pages': Pages, children': seq<nat>, firsts': seq<bytes>, lasts': seq<bytes>, ghost nodes': seq<Node>)
    requires Level(pages, nodes, children, firsts, lasts) && InSize(pages)
    ensures Extends(pages, pages') && InSize(pages') && Level(pages', nodes', children', firsts', lasts')
    ensures Concat(nodes') == Concat(nodes) && LeavesIn(nodes') == LeavesIn(nodes) && 2 * |nodes'| <= |nodes| + 1
  {
    pages', children', firsts', lasts', nodes' := pages, [], [], [], [];
    var i := 0;
    assert [] + nodes[0..] == nodes;
    while i < |children|
      invariant Extends(pages, pages') && InSize(pages')
      invariant Building(pages', nodes, i, nodes', children', firsts', lasts')
      decreases |children| - i
    {
      LevelGrows(pages, pages', nodes, children, firsts, lasts);
      var current, end;
      pages', current, end := NextPage(pages', children, firsts, lasts, i, nodes, nodes', children', firsts', lasts');
      children', firsts', lasts' := children' + [current], firsts' + [firsts[i]], lasts' + [lasts[end - 1]];
      nodes', i := nodes' + [Fork(current, nodes[i..end])], end;
    }
    AllBuilt(nodes, nodes');
  }

  /** Packs one page of the level under construction. */
  method NextPage(pages: Pages, children: seq<nat>, firsts: seq<bytes>, lasts: seq<bytes>, i: nat, ghost nodes: seq<Node>,
                  ghost built: seq<Node>, ghost cs: seq<nat>, ghost fs: seq<bytes>, ghost ls: seq<bytes>)
    returns (pages': Pages, current: nat, end: nat)
    requires Level(pages, nodes, children, firsts, lasts) && InSize(pages) && i < |nodes| && Building(pages, nodes, i, built, cs, fs, ls)
    ensures Extends(pages, pages') && InSize(pages') && i < end <= |nodes|
    ensures Building(pages', nodes, end, built + [Fork(current, nodes[i..end])], cs + [current], fs + [firsts[i]], ls + [lasts[end - 1]])
  {
    pages', current, end := PackPage(pages, children, firsts, lasts, i, nodes);
    LevelStored(pages, nodes, children, firsts, lasts);
    BuildingMore(pages, pages', nodes, i, built, cs, fs, ls, end, current, firsts[i], lasts[end - 1]);
  }

  lemma AllBuilt(nodes: seq<Node>, built: seq<Node>)
    ensures nodes[..|nodes|] == nodes && built + nodes[|nodes|..] == built
  {
  }

  lemma LevelStored(pages: Pages, nodes: seq<Node>, children: seq<nat>, firsts: seq<bytes>, lasts: seq<bytes>)
    requires Level(pages, nodes, children, firsts, lasts)
    ensures forall j :: 0 <= j < |nodes| ==> T.Stored(pages, nodes[j])
  {
    forall j | 0 <= j < |nodes| ensures T.Stored(pages, nodes[j]) {
      assert Child(pages, nodes[j], children[j], firsts[j], lasts[j]);
    }
  }

  lemma LevelGrows(pages: Pages, pages': Pages, nodes: seq<Node>, children: seq<nat>, firsts: seq<bytes>, lasts: seq<bytes>)
    requires Level(pages, nodes, children, firsts, lasts) && Extends(pages, pages')
    ensures Level(pages', nodes, children, firsts, lasts)
  {
    RowGrows(pages, pages', nodes, children, firsts, lasts);
  }

  /** Builds levels until one page is left: the root of a tree with the entries it was given. */
  method BuildInternalLevels(pages: Pages, children: seq<nat>, firsts: seq<bytes>, lasts: seq<bytes>, ghost nodes: seq<Node>)
    returns (pages': Pages, root: nat, ghost tree: Node)
    requires Level(pages, nodes, children, firsts, lasts) && InSize(pages)
    ensures Extends(pages, pages') && InSize(pages')
    ensures tree.page == root && T.Stored(pages', tree) && Apart(tree) && Items(tree) == Concat(nodes) && LeavesOf(tree) == LeavesIn(nodes)
  {
    pages' := pages;
    var cs, fs, ls := children, firsts, lasts;
    ghost var ns := nodes;
    while |cs| > 1
      invariant Extends(pages, pages') && InSize(pages') && Level(pages', ns, cs, fs, ls)
      invariant Concat(ns) == Concat(nodes) && LeavesIn(ns) == LeavesIn(nodes)
      decreases |cs|
    {
      pages', cs, fs, ls, ns := BuildLevel(pages', cs, fs, ls, ns);
    }
    root, tree := cs[0], ns[0];
    LeavesOne(ns[0]);
    ConcatMore([], ns[0]);
    assert ns == [] + [ns[0]];
    assert Child(pages', ns[0], cs[0], fs[0], ls[0]);
  }

  // ---- leaves -------------------------------------------------------------------------------------

  function Flat(parts: seq<seq<Entry>>): seq<Entry> {
    if parts == [] then [] else Flat(parts[..|parts| - 1]) + parts[|parts| - 1]
  }

  ghost predicate LeafIs(pages: Pages, p: nat, entries: seq<Entry>) {
    p in pages && pages[p].Leaf? && pages[p].entries == entries
  }

  ghost predicate Linked(pages: Pages, a: nat, b: nat) {
    a in pages && b in pages && pages[a].Leaf? && pages[b].Leaf? && pages[a].next == b && pages[b].prev == a
  }

  /** The leaves hold the parts and are chained in both directions; `tail` is what the last one links to. */
  ghost predicate Chain(pages: Pages, leaves: seq<nat>, parts: seq<seq<Entry>>, tail: nat) {
    && |leaves| == |parts| >= 1 && (forall i, j :: 0 <= i < j < |leaves| ==> leaves[i] != leaves[j])
    && (forall i {:trigger leaves[i]} :: 0 <= i < |leaves| ==> LeafIs(pages, leaves[i], parts[i]))
    && (forall i, j {:trigger leaves[i], leaves[j]} :: 0 <= i < j < |leaves| && j == i + 1 ==> Linked(pages, leaves[i], leaves[j]))
    && pages[leaves[0]].prev == 0 && pages[leaves[|leaves| - 1]].next == tail
  }

  lemma ChainChained(pages: Pages, leaves: seq<nat>, parts: seq<seq<Entry>>)
    requires Chain(pages, leaves, parts, 0)
    ensures Chained(pages, leaves)
  {
    forall i | 0 <= i < |leaves| ensures Links(pages, leaves, i) {
      assert LeafIs(pages, leaves[i], parts[i]);
      if i > 0 {
        assert Linked(pages, leaves[i - 1], leaves[i]);
      }
      if i < |leaves| - 1 {
        assert Linked(pages, leaves[i], leaves[i + 1]);
      }
    }
  }

  /** A new empty leaf after the last one. */
  function WithLeaf(pages: Pages, current: nat, extra: nat): Pages
    requires current in pages && pages[current].Leaf?
  {
    pages[current := pages[current].(next := extra)][extra := Leaf([], 0, current)]
  }

  lemma ChainLeaf(pages: Pages, leaves: seq<nat>, parts: seq<seq<Entry>>, tail: nat, extra: nat)
    requires Chain(pages, leaves, parts, tail) && Unused(pages, extra)
    ensures var current := leaves[|leaves| - 1];
            LeafIs(pages, current, parts[|parts| - 1]) && Chain(WithLeaf(pages, current, extra), leaves + [extra], parts + [[]], 0)
  {
    var n, current := |leaves|, leaves[|leaves| - 1];
    assert LeafIs(pages, current, parts[n - 1]);
    var pages', leaves', parts' := WithLeaf(pages, current, extra), leaves + [extra], parts + [[]];
    forall i | 0 <= i < |leaves'| ensures LeafIs(pages', leaves'[i], parts'[i]) && (i < n ==> leaves'[i] != extra) {
      if i < n {
        assert LeafIs(pages, leaves[i], parts[i]);
      }
    }
    forall i, j | 0 <= i < j < |leaves'| && j == i + 1 ensures Linked(pages', leaves'[i], leaves'[j]) {
      if j < n {
        assert Linked(pages, leaves[i], leaves[j]);
      }
    }
  }

  /** One more entry in the last leaf. */
  lemma ChainEntry(pages: Pages, leaves: seq<nat>, parts: seq<seq<Entry>>, tail: nat, e: Entry)
    requires Chain(pages, leaves, parts, tail)
    ensures var n, current := |leaves| - 1, leaves[|leaves| - 1];
            && LeafIs(pages, current, parts[n])
            && Chain(Written(pages, current, parts[n] + [e]), leaves, parts[n := parts[n] + [e]], tail)
  {
    var n, current := |leaves| - 1, leaves[|leaves| - 1];
    assert LeafIs(pages, current, parts[n]);
    var pages', parts' := Written(pages, current, parts[n] + [e]), parts[n := parts[n] + [e]];
    forall i | 0 <= i < |leaves| ensures LeafIs(pages', leaves[i], parts'[i]) {
      assert LeafIs(pages, leaves[i], parts[i]);
    }
    forall i, j | 0 <= i < j < |leaves| && j == i + 1 ensures Linked(pages', leaves[i], leaves[j]) {
      assert Linked(pages, leaves[i], leaves[j]);
    }
  }

  lemma FlatEntry(parts: seq<seq<Entry>>, e: Entry)
    requires parts != []
    ensures var n := |parts| - 1; Flat(parts[n := parts[n] + [e]]) == Flat(parts) + [e]
  {
    var n := |parts| - 1;
    assert parts[n := parts[n] + [e]][..n] == parts[..n];
  }

  lemma FlatLeaf(parts: seq<seq<Entry>>)
    ensures Flat(parts + [[]]) == Flat(parts)
  {
    assert (parts + [[]])[..|parts|] == parts;
  }

  lemma FlatOne(parts: seq<seq<Entry>>)
    requires |parts| == 1
    ensures Flat(parts) == parts[0]
  {
    assert parts[..0] == [];
  }

  ghost function Tips(leaves: seq<nat>, parts: seq<seq<Entry>>): seq<Node>
    requires |leaves| == |parts|
  {
    seq(|leaves|, i requires 0 <= i < |leaves| => Tip(leaves[i], parts[i]))
  }

  lemma {:induction false} ConcatTips(leaves: seq<nat>, parts: seq<seq<Entry>>)
    requires |leaves| == |parts|
    ensures Concat(Tips(leaves, parts)) == Flat(parts) && LeavesIn(Tips(leaves, parts)) == leaves
  {
    if parts != [] {
      var n := |parts| - 1;
      ConcatTips(leaves[..n], parts[..n]);
      assert Tips(leaves, parts)[..n] == Tips(leaves[..n], parts[..n]);
    }
  }

  ghost predicate Bounds(part: seq<Entry>, first: bytes, last: bytes) {
    part != [] && part[0].key == first && part[|part| - 1].key == last
  }

  /** The boundary keys of all leaves but the last, and of the last as far as it has any. */
  ghost predicate Bounded(parts: seq<seq<Entry>>, firsts: seq<bytes>, lasts: seq<bytes>, first: Option<bytes>, last: Option<bytes>) {
    && |parts| >= 1 && |firsts| == |lasts| == |parts| - 1
    && (forall i {:trigger parts[i]} :: 0 <= i < |parts| - 1 ==> Bounds(parts[i], firsts[i], lasts[i]))
    && var part := parts[|parts| - 1];
       if part == [] then first.None? && last.None? else first.Some? && last.Some? && Bounds(part, first.value, last.value)
  }

  ghost predicate ShortKeys(entries: seq<Entry>) {
    forall i :: 0 <= i < |entries| ==> |entries[i].key| <= MAX_KEY
  }

  lemma BoundedLeaf(parts: seq<seq<Entry>>, firsts: seq<bytes>, lasts: seq<bytes>, first: Option<bytes>, last: Option<bytes>)
    requires Bounded(parts, firsts, lasts, first, last) && parts[|parts| - 1] != []
    ensures Bounded(parts + [[]], firsts + [first.value], lasts + [last.value], None, None)
  {
    var ps, fs, ls := parts + [[]], firsts + [first.value], lasts + [last.value];
    forall i | 0 <= i < |ps| - 1 ensures Bounds(ps[i], fs[i], ls[i]) {
      assert ps[i] == parts[i];
    }
  }

  lemma BoundedEntry(parts: seq<seq<Entry>>, firsts: seq<bytes>, lasts: seq<bytes>, first: Option<bytes>, last: Option<bytes>, e: Entry)
    requires Bounded(parts, firsts, lasts, first, last)
    ensures var n := |parts| - 1;
            Bounded(parts[n := parts[n] + [e]], firsts, lasts, Some(if first.None? then e.key else first.value), Some(e.key))
  {
    var n := |parts| - 1;
    var ps := parts[n := parts[n] + [e]];
    forall i | 0 <= i < |ps| - 1 ensures Bounds(ps[i], firsts[i], lasts[i]) {
      assert ps[i] == parts[i];
    }
  }

  lemma SumMore(es: seq<Entry>, e: Entry)
    ensures Sum(es + [e]) == Sum(es) + Cost(e)
  {
    UptoAgree(es + [e], es, |es|);
  }

  lemma OrderedMore(es: seq<Entry>, e: Entry)
    requires Ordered(es) && (es != [] ==> Lex.Less(es[|es| - 1].key, e.key))
    ensures Ordered(es + [e])
  {
    forall i | 0 <= i < |es| ensures Lex.Less(es[i].key, e.key) {
      if i < |es| - 1 {
        Lex.Transitive(es[i].key, es[|es| - 1].key, e.key);
      }
    }
  }

  lemma {:induction false} InFlat(parts: seq<seq<Entry>>, i: nat, e: Entry)
    requires i < |parts| && e in parts[i]
    ensures e in Flat(parts)
    decreases |parts|
  {
    if i < |parts| - 1 {
      InFlat(parts[..|parts| - 1], i, e);
    }
  }

  lemma {:induction false} OrderedTip(leaves: seq<nat>, parts: seq<seq<Entry>>, i: nat)
    requires |leaves| == |parts| && i < |parts| && Ordered(Flat(parts))
    ensures Ordered(parts[i])
  {
    ConcatTips(leaves, parts);
    OrderedPart(Tips(leaves, parts), i);
  }

  lemma TipChild(pages: Pages, leaves: seq<nat>, parts: seq<seq<Entry>>, loaded: seq<Entry>, i: nat, first: bytes, last: bytes)
    requires i < |leaves| == |parts| && LeafIs(pages, leaves[i], parts[i]) && Bounds(parts[i], first, last)
    requires Flat(parts) == loaded && Ordered(loaded) && ShortKeys(loaded)
    ensures Child(pages, Tip(leaves[i], parts[i]), leaves[i], first, last)
  {
    var e := parts[i][|parts[i]| - 1];
    InFlat(parts, i, e);
    var x :| 0 <= x < |loaded| && loaded[x] == e;
    OrderedTip(leaves, parts, i);
  }

  lemma TipsSeparate(leaves: seq<nat>, parts: seq<seq<Entry>>)
    requires |leaves| == |parts| && forall i, j :: 0 <= i < j < |leaves| ==> leaves[i] != leaves[j]
    ensures Separate(Tips(leaves, parts))
  {
  }

  lemma TipsLevel(pages: Pages, leaves: seq<nat>, parts: seq<seq<Entry>>, tail: nat, firsts: seq<bytes>, lasts: seq<bytes>, loaded: seq<Entry>)
    requires Chain(pages, leaves, parts, tail) && |firsts| == |lasts| == |parts|
    requires forall i {:trigger parts[i]} :: 0 <= i < |parts| ==> Bounds(parts[i], firsts[i], lasts[i])
    requires Flat(parts) == loaded && Ordered(loaded) && ShortKeys(loaded)
    ensures Level(pages, Tips(leaves, parts), leaves, firsts, lasts) && Concat(Tips(leaves, parts)) == loaded && LeavesIn(Tips(leaves, parts)) == leaves
  {
    ConcatTips(leaves, parts);
    TipsSeparate(leaves, parts);
    var nodes := Tips(leaves, parts);
    forall i | 0 <= i < |nodes| ensures Child(pages, nodes[i], leaves[i], firsts[i], lasts[i]) {
      assert LeafIs(pages, leaves[i], parts[i]) && Bounds(parts[i], firsts[i], lasts[i]);
      TipChild(pages, leaves, parts, loaded, i, firsts[i], lasts[i]);
    }
  }

  lemma BoundedAll(parts: seq<seq<Entry>>, firsts: seq<bytes>, lasts: seq<bytes>, first: bytes, last: bytes)
    requires Bounded(parts, firsts, lasts, Some(first), Some(last))
    ensures var fs, ls := firsts + [first], lasts + [last];
            forall i {:trigger parts[i]} :: 0 <= i < |parts| ==> Bounds(parts[i], fs[i], ls[i])
  {
  }

  lemma ChainGrows(pages: Pages, pages': Pages, leaves: seq<nat>, parts: seq<seq<Entry>>, tail: nat)
    requires Chain(pages, leaves, parts, tail) && Extends(pages, pages')
    ensures Chain(pages', leaves, parts, tail)
  {
    forall i | 0 <= i < |leaves| ensures LeafIs(pages', leaves[i], parts[i]) {
      assert LeafIs(pages, leaves[i], parts[i]);
    }
    forall i, j | 0 <= i < j < |leaves| && j == i + 1 ensures Linked(pages', leaves[i], leaves[j]) {
      assert Linked(pages, leaves[i], leaves[j]);
    }
  }

  // ---- the builder --------------------------------------------------------------------------------------

  /** Page one, where a load begins, is a leaf that is empty and has none before it. */
  ghost predicate Starts(pages: Pages) {
    InSize(pages) && 1 in pages && pages[1].Leaf? && pages[1].entries == [] && pages[1].prev == 0
  }

  /** A load that has filled one leaf has only written page one; one that needed more has chained new leaves to it. */
  ghost predicate Over(start: Pages, pages: Pages, parts: seq<seq<Entry>>, loaded: seq<Entry>) {
    && Starts(start) && (|parts| == 1 <==> Sum(loaded) <= ROOM) && (|parts| == 1 ==> pages == Written(start, 1, loaded))
  }

  /** What the leaves hold once an entry has joined the last of them. */
  ghost function Joined(parts: seq<seq<Entry>>, e: Entry): seq<seq<Entry>>
    requires parts != []
  {
    parts[|parts| - 1 := parts[|parts| - 1] + [e]]
  }

  lemma JoinedNew(parts: seq<seq<Entry>>, e: Entry)
    ensures Joined(parts + [[]], e) == parts + [[e]]
  {
    assert [] + [e] == [e];
  }

  class Builder {
    var pages: Pages
    var root: nat
    var current: nat
    var leaves: seq<nat>
    var firsts: seq<bytes>
    var lasts: seq<bytes>
    var first: Option<bytes>
    var last: Option<bytes>
    ghost var parts: seq<seq<Entry>>
    ghost var loaded: seq<Entry>
    ghost const start: Pages

    /** What the last leaf links to: whatever page one did, until there is a second leaf. */
    ghost function Tail(): nat
      requires Starts(start)
      reads this
    {
      if |leaves| == 1 then start[1].next else 0
    }

    /** The leaves so far hold what was pushed, in order; the last one may have just been opened. */
    ghost predicate Open()
      reads this
    {
      && Starts(start) && Chain(pages, leaves, parts, Tail()) && InSize(pages) && current == leaves[|leaves| - 1] && leaves[0] == 1
      && Flat(parts) == loaded && Ordered(loaded) && ShortKeys(loaded) && Bounded(parts, firsts, lasts, first, last)
    }

    ghost predicate Valid()
      reads this
    {
      Open() && (parts[|parts| - 1] == [] ==> |parts| == 1) && Over(start, pages, parts, loaded)
    }

    /** A builder over the pages of a tree that holds no entries. */
    constructor (pages: Pages, root: nat)
      requires Starts(pages)
      ensures Valid() && loaded == [] && this.root == root && this.pages == start == pages
    {
      this.pages, this.root, start, current, leaves := pages, root, pages, 1, [1];
      firsts, lasts, first, last, parts, loaded := [], [], None, None, [[]], [];
      new;
      FlatOne([[]]);
    }

    method Become(p: Pages, cur: nat, ls: seq<nat>, fk: seq<bytes>, lk: seq<bytes>, f: Option<bytes>, l: Option<bytes>,
                  ghost ps: seq<seq<Entry>>, ghost ld: seq<Entry>)
      modifies this
      ensures pages == p && current == cur && leaves == ls && firsts == fk && lasts == lk && first == f && last == l
      ensures parts == ps && loaded == ld && root == old(root)
    {
      pages, current, leaves, firsts, lasts, first, last, parts, loaded := p, cur, ls, fk, lk, f, l, ps, ld;
    }

    /** Closes the current leaf and opens another after it, on any page not in use. */
    method NewLeaf()
      requires Open() && parts[|parts| - 1] != []
      modifies this
      ensures Open() && parts == old(parts) + [[]] && loaded == old(loaded) && root == old(root)
    {
      var extra := Allocate(pages);
      ChainLeaf(pages, leaves, parts, Tail(), extra);
      FlatLeaf(parts);
      BoundedLeaf(parts, firsts, lasts, first, last);
      WithLeafKept(pages, current, extra);
      Become(WithLeaf(pages, current, extra), extra, leaves + [extra], firsts + [first.value], lasts + [last.value],
             None, None, parts + [[]], loaded);
    }

    /** Appends an entry to the current leaf. */
    method Add(e: Entry)
      requires Open() && |e.key| <= MAX_KEY && Sum(parts[|parts| - 1]) + Cost(e) <= ROOM
      requires loaded != [] ==> Lex.Less(loaded[|loaded| - 1].key, e.key)
      modifies this
      ensures Open() && loaded == old(loaded) + [e] && root == old(root) && leaves == old(leaves)
      ensures parts == old(parts)[|parts| - 1 := old(parts[|parts| - 1]) + [e]] && pages == Written(old(pages), current, parts[|parts| - 1])
    {
      ghost var n := |parts| - 1;
      ghost var ps := parts[n := parts[n] + [e]];
      ChainEntry(pages, leaves, parts, Tail(), e);
      FlatEntry(parts, e);
      SumMore(parts[n], e);
      OrderedMore(loaded, e);
      BoundedEntry(parts, firsts, lasts, first, last, e);
      AddTo(Written(pages, current, pages[current].entries + [e]), e, ps);
    }

    method AddTo(p: Pages, e: Entry, ghost ps: seq<seq<Entry>>)
      requires Starts(start) && Chain(p, leaves, ps, Tail()) && InSize(p) && leaves != [] && current == leaves[|leaves| - 1] && leaves[0] == 1
      requires Flat(ps) == loaded + [e] && Ordered(loaded + [e]) && ShortKeys(loaded) && |e.key| <= MAX_KEY
      requires Bounded(ps, firsts, lasts, Some(if first.None? then e.key else first.value), Some(e.key))
      modifies this
      ensures Open() && loaded == old(loaded) + [e] && root == old(root) && leaves == old(leaves) && parts == ps && pages == p
    {
      Become(p, current, leaves, firsts, lasts, Some(if first.None? then e.key else first.value), Some(e.key), ps, loaded + [e]);
    }

    /** Adds the next entry, opening a new leaf when the current one is full. */
    method Push(e: Entry)
      requires Valid() && |e.key| <= MAX_KEY && Cost(e) <= ROOM
      requires loaded != [] ==> Lex.Less(loaded[|loaded| - 1].key, e.key)
      modifies this
      ensures Valid() && loaded == old(loaded) + [e] && root == old(root)
      ensures parts == if Sum(old(parts[|parts| - 1])) + Cost(e) <= ROOM then Joined(old(parts), e) else old(parts) + [[e]]
    {
      assert LeafIs(pages, current, parts[|parts| - 1]);
      if |parts| == 1 {
        FlatOne(parts);
      }
      if Sum(pages[current].entries) + Cost(e) > ROOM {
        OverNew(start, pages, parts, loaded, e);
        JoinedNew(parts, e);
        NewLeaf();
        PushFirst(e);
      } else {
        PushHere(e);
      }
    }

    /** Adds an entry to the current leaf, which has room for it. */
    method PushHere(e: Entry)
      requires Valid() && |e.key| <= MAX_KEY && Sum(parts[|parts| - 1]) + Cost(e) <= ROOM
      requires (loaded != [] ==> Lex.Less(loaded[|loaded| - 1].key, e.key)) && (|parts| == 1 ==> parts[0] == loaded)
      modifies this
      ensures Valid() && loaded == old(loaded) + [e] && root == old(root)
      ensures parts == Joined(old(parts), e)
    {
      assert LeafIs(pages, current, parts[|parts| - 1]);
      OverSame(start, pages, parts, loaded, current, e);
      Add(e);
    }

    /** Adds the first entry to a leaf just opened. */
    method PushFirst(e: Entry)
      requires Open() && |parts| > 1 && parts[|parts| - 1] == [] && |e.key| <= MAX_KEY && Cost(e) <= ROOM && Sum(loaded + [e]) > ROOM
      requires loaded != [] ==> Lex.Less(loaded[|loaded| - 1].key, e.key)
      modifies this
      ensures Valid() && loaded == old(loaded) + [e] && root == old(root)
      ensures parts == Joined(old(parts), e)
    {
      Add(e);
    }

    method PushAll(items: seq<Entry>)
      requires Valid() && loaded == [] && Ordered(items) && forall i :: 0 <= i < |items| ==> Storable(items[i])
      modifies this
      ensures Valid() && loaded == items && root == old(root)
    {
      for i := 0 to |items|
        invariant Valid() && loaded == items[..i] && root == old(root)
      {
        NextItem(items, i);
        Push(items[i]);
      }
      assert items[..|items|] == items;
    }

    /** Builds the internal levels over the leaves. */
    method BuildAbove() returns (ghost tree: Node)
      requires Valid() && |leaves| > 1
      modifies this`pages, this`root
      ensures Sound(pages, root, current, tree) && Items(tree) == loaded && LeavesOf(tree) == leaves
      ensures Chain(pages, leaves, parts, 0) && Flat(parts) == loaded
    {
      BoundedAll(parts, firsts, lasts, first.value, last.value);
      TipsLevel(pages, leaves, parts, 0, firsts + [first.value], lasts + [last.value], loaded);
      var p, r;
      p, r, tree := BuildInternalLevels(pages, leaves, firsts + [first.value], lasts + [last.value], Tips(leaves, parts));
      ChainGrows(pages, p, leaves, parts, 0);
      ChainChained(p, leaves, parts);
      pages, root := p, r;
    }

    /**
     Finishes the load. With more than one leaf the root becomes the top of a tree that holds exactly what was
     pushed, chained in order. A single leaf stays where it is, and so does the root.
     */
    method Finish() returns (ghost tree: Node)
      requires Valid()
      modifies this`pages, this`root
      ensures Sum(loaded) > ROOM ==> Sound(pages, root, current, tree) && Items(tree) == loaded
      ensures Sum(loaded) > ROOM ==> LeavesOf(tree) == leaves && Chain(pages, leaves, parts, 0) && Flat(parts) == loaded
      ensures Sum(loaded) <= ROOM ==> root == old(root) && pages == Written(start, 1, loaded) && current == 1
    {
      if |leaves| > 1 {
        tree := BuildAbove();
      } else {
        tree := Tip(1, loaded);
      }
    }
  }

  /** An entry for which a new leaf is opened. */
  lemma OverNew(start: Pages, pages: Pages, parts: seq<seq<Entry>>, loaded: seq<Entry>, e: Entry)
    requires Over(start, pages, parts, loaded) && parts != [] && (|parts| == 1 ==> parts[0] == loaded)
    requires Sum(parts[|parts| - 1]) + Cost(e) > ROOM
    ensures Sum(loaded + [e]) > ROOM
  {
    SumMore(loaded, e);
  }

  /** An entry that goes to the current leaf. */
  lemma OverSame(start: Pages, pages: Pages, parts: seq<seq<Entry>>, loaded: seq<Entry>, current: nat, e: Entry)
    requires Over(start, pages, parts, loaded) && parts != [] && (|parts| == 1 ==> parts[0] == loaded && current == 1)
    requires current in pages && pages[current].Leaf? && Sum(parts[|parts| - 1]) + Cost(e) <= ROOM
    ensures var n := |parts| - 1; Over(start, Written(pages, current, parts[n] + [e]), parts[n := parts[n] + [e]], loaded + [e])
  {
    SumMore(loaded, e);
  }

  lemma WithLeafKept(pages: Pages, current: nat, extra: nat)
    requires InSize(pages) && current in pages && pages[current].Leaf? && Unused(pages, extra)
    ensures InSize(WithLeaf(pages, current, extra))
  {
    assert Sized(pages[current]);
  }

  lemma NextItem(items: seq<Entry>, i: nat)
    requires Ordered(items) && i < |items| && Storable(items[i])
    ensures items[..i + 1] == items[..i] + [items[i]] && Cost(items[i]) <= ROOM
    ensures i > 0 ==> Lex.Less(items[..i][i - 1].key, items[i].key)
  {
    StorableFits(items[i]);
  }
}
