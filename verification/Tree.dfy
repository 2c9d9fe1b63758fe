/** The tree as a store of entries: looking up, putting and deleting by key. */
module Trees {
  import opened Base
  import opened Bytes
  import opened LeafPages
  import opened LeafSplits
  import opened BTrees
  import opened TreeEdits
  import opened TreeSplits
  import T = BTrees
  import Lex

  /** Every page is within its size. */
  predicate Sized(page: Page) {
    if page.Leaf? then Sum(page.entries) <= ROOM else Used(page.seps) <= INNER
  }

  ghost predicate AllSized(pages: Pages) {
    forall p :: p in pages ==> Sized(pages[p])
  }

  /** The shape is stored in the pages, no page occurs twice in it, and its leaves are chained from left to right, beginning with page one. */
  ghost predicate Sound(pages: Pages, root: nat, rightmost: nat, shape: Node) {
    && shape.page == root && T.Stored(pages, shape) && Apart(shape) && 0 !in pages && AllSized(pages)
    && Chained(pages, LeavesOf(shape)) && LeavesOf(shape)[0] == 1 && rightmost == LeavesOf(shape)[|LeavesOf(shape)| - 1]
  }

  // ---- the way down ----------------------------------------------------------------------------------

  lemma {:induction false} LeadsMore(pages: Pages, n: Node, key: bytes, route: seq<nat>, i: nat)
    requires T.Stored(pages, n) && Leads(pages, n, key, route) && IsPath(n, route)
    requires Sub(n, route).Fork? && i < |Sub(n, route).nodes| && Sub(n, route).page in pages && pages[Sub(n, route).page].Internal?
    requires Routes(pages[Sub(n, route).page].seps, key, i)
    ensures Leads(pages, n, key, route + [i]) && IsPath(n, route + [i]) && Sub(n, route + [i]) == Sub(n, route).nodes[i]
    decreases |route|
  {
    if route == [] {
      assert (route + [i])[1..] == [];
    } else {
      LeadsMore(pages, n.nodes[route[0]], key, route[1..], i);
      assert (route + [i])[1..] == route[1..] + [i];
    }
  }

  /** Where the way down ends: at a leaf, below its parent if it has one. */
  ghost predicate Arrived(pages: Pages, n: Node, key: bytes, path: seq<nat>, leaf: nat, route: seq<nat>) {
    && T.Stored(pages, n) && Leads(pages, n, key, route) && IsPath(n, route) && Sub(n, route).page == leaf
    && |path| == |route| && (route != [] ==> Parent(pages, n, key, route, path[|path| - 1], leaf))
  }

  ghost predicate Parent(pages: Pages, n: Node, key: bytes, route: seq<nat>, parent: nat, leaf: nat)
    requires T.Stored(pages, n) && route != []
  {
    var up, i := route[..|route| - 1], route[|route| - 1];
    && Leads(pages, n, key, up) && IsPath(n, up) && Sub(n, up).Fork? && Sub(n, up).page == parent && parent in pages
    && pages[parent].Internal? && Routes(pages[parent].seps, key, i) && i < |Sub(n, up).nodes| && Sub(n, up).nodes[i].page == leaf
    && IsPath(n, route) && Sub(n, route) == Sub(n, up).nodes[i]
  }

  /** Walks down to the leaf of a key and notes the pages it passes. */
  method Descend(pages: Pages, root: nat, key: bytes, ghost n: Node) returns (leaf: nat, path: seq<nat>, ghost route: seq<nat>)
    requires T.Stored(pages, n) && root == n.page
    ensures Arrived(pages, n, key, path, leaf, route) && Sub(n, route).Tip? && T.Stored(pages, Sub(n, route))
  {
    leaf, path, route := root, [], [];
    while pages[leaf].Internal?
      invariant Arrived(pages, n, key, path, leaf, route) && T.Stored(pages, Sub(n, route))
      decreases Sub(n, route)
    {
      var i := Search(pages[leaf].seps, key);
      LeadsMore(pages, n, key, route, i);
      assert (route + [i])[..|route|] == route;
      leaf, path, route := pages[leaf].kids[i], path + [leaf], route + [i];
    }
  }

  /** Entries with the key can only be where it is routed. */
  lemma {:induction false} OnlyAtEnd(pages: Pages, n: Node, key: bytes, route: seq<nat>, e: Entry)
    requires T.Stored(pages, n) && Leads(pages, n, key, route) && IsPath(n, route) && e.key == key
    ensures e in Items(n) <==> e in Items(Sub(n, route))
    decreases |route|
  {
    if route != [] {
      OnlyAtEnd(pages, n.nodes[route[0]], key, route[1..], e);
      InConcat(n.nodes, e);
      if e in Items(n) {
        OnlyBelow(pages, n, key, route[0], e);
      }
    }
  }

  lemma HeldBelow(pages: Pages, n: Node, key: bytes, route: seq<nat>)
    requires T.Stored(pages, n) && Leads(pages, n, key, route) && IsPath(n, route)
    ensures Holds(Items(n), key) <==> Holds(Items(Sub(n, route)), key)
  {
    if Holds(Items(n), key) {
      var e :| e in Items(n) && e.key == key;
      OnlyAtEnd(pages, n, key, route, e);
    }
    if Holds(Items(Sub(n, route)), key) {
      var e :| e in Items(Sub(n, route)) && e.key == key;
      OnlyAtEnd(pages, n, key, route, e);
    }
  }

  // ---- a leaf is written ---------------------------------------------------------------------------------

  function Written(pages: Pages, p: nat, entries: seq<Entry>): Pages
    requires p in pages && pages[p].Leaf?
  {
    pages[p := pages[p].(entries := entries)]
  }

  lemma TipReplaces(pages: Pages, n: Node, m: Node, entries: seq<Entry>, sub: seq<Entry>, key: bytes)
    requires m.Tip? && T.Stored(pages, m) && Ordered(entries) && Swapped(m.entries, sub, entries, key) && forall p :: Has(n, p) ==> p in pages
    ensures Replaces(pages, Written(pages, m.page, entries), n, m, Tip(m.page, entries), sub, key)
  {
  }

  /** New contents of the leaf of a key that differ only in what they hold for the key. */
  lemma LeafWritten(pages: Pages, root: nat, rightmost: nat, n: Node, key: bytes, route: seq<nat>, entries: seq<Entry>, sub: seq<Entry>)
    requires Sound(pages, root, rightmost, n) && Leads(pages, n, key, route) && IsPath(n, route) && Sub(n, route).Tip?
    requires Ordered(entries) && Sum(entries) <= ROOM && Swapped(Sub(n, route).entries, sub, entries, key)
    ensures var m := Sub(n, route);
            && m.page in pages && pages[m.page].Leaf?
            && var n' := Grafted(n, route, Tip(m.page, entries));
               Sound(Written(pages, m.page, entries), root, rightmost, n') && Swapped(Items(n), sub, Items(n'), key)
  {
    var m := Sub(n, route);
    LeadsPath(pages, n, key, route);
    forall p | Has(n, p) ensures p in pages {
      HasStored(pages, n, p);
    }
    TipReplaces(pages, n, m, entries, sub, key);
    GraftReplaces(pages, Written(pages, m.page, entries), n, n, key, route, Tip(m.page, entries), sub);
    var b, a := LeavesGrafted(n, route, Tip(m.page, entries));
    ChainWritten(pages, LeavesOf(n), m.page, entries);
  }

  // ---- entries of one leaf ---------------------------------------------------------------------------------

  /** A leaf without the entry for a key, and where the key belongs in it. */
  method Stripped(entries: seq<Entry>, key: bytes) returns (rest: seq<Entry>, pos: nat, found: bool)
    requires Ordered(entries)
    ensures Ordered(rest) && Splits(rest, key, pos) && Swapped(entries, [], rest, key) && Sum(rest) <= Sum(entries)
    ensures found == Holds(entries, key) && (!found ==> rest == entries)
  {
    pos := Position(entries, key);
    rest := entries;
    found := pos < |entries| && entries[pos].key == key;
    if found {
      rest := Without(entries, pos);
      OrderedWithout(entries, pos);
      WithoutSwapped(entries, pos);
      WithoutSum(entries, pos);
      assert entries[pos] in entries;
    } else {
      NotThere(entries, key, pos);
    }
  }

  lemma WithoutSum(entries: seq<Entry>, pos: nat)
    requires pos < |entries|
    ensures Sum(Without(entries, pos)) <= Sum(entries)
  {
    InsertedBack(entries, pos, entries[pos]);
    SumInserted(Without(entries, pos), pos, entries[pos]);
    assert entries[pos := entries[pos]] == entries;
  }

  lemma WithoutSwapped(entries: seq<Entry>, pos: nat)
    requires Ordered(entries) && pos < |entries|
    ensures Swapped(entries, [], Without(entries, pos), entries[pos].key)
  {
    var rest, key := Without(entries, pos), entries[pos].key;
    forall f ensures f in rest <==> f.key != key && f in entries {
      if f in rest {
        var j :| 0 <= j < |rest| && rest[j] == f;
        assert f == entries[if j < pos then j else j + 1];
        Lex.Total(f.key, key);
      }
      if f.key != key && f in entries {
        var j :| 0 <= j < |entries| && entries[j] == f;
        assert f == rest[if j < pos then j else j - 1];
      }
    }
  }

  lemma InsertedSwapped(entries: seq<Entry>, rest: seq<Entry>, pos: nat, e: Entry)
    requires Swapped(entries, [], rest, e.key) && pos <= |rest|
    ensures Swapped(entries, [e], Inserted(rest, pos, e), e.key)
  {
    var all := Inserted(rest, pos, e);
    forall f ensures f in all <==> f == e || f in rest {
      if f in rest {
        var j :| 0 <= j < |rest| && rest[j] == f;
        assert f == all[if j < pos then j else j + 1];
      }
      assert all[pos] == e;
    }
  }

  // ---- a leaf is split below its parent -----------------------------------------------------------------------

  function SplitInto(pages: Pages, parent: nat, i: nat, leaf: nat, left: seq<Entry>, sep: bytes, q: nat, right: seq<Entry>): Pages
    requires Linkable(pages, leaf) && parent in pages && pages[parent].Internal? && i < |pages[parent].kids| && i <= |pages[parent].seps|
  {
    Relinked(pages, leaf, left, q, right)[parent := Internal(Inserted(pages[parent].kids, i + 1, q), Inserted(pages[parent].seps, i, sep))]
  }

  lemma InsertedParts<E>(s: seq<E>, i: nat, x: E, y: E)
    requires i < |s|
    ensures Inserted(s[i := x], i + 1, y) == s[..i] + [x] + ([y] + s[i + 1..])
  {
  }

  /** The new leaf stands right after the one that was split. */
  lemma SplitLeaves(m: Node, i: nat, left: seq<Entry>, q: nat, right: seq<Entry>) returns (before: seq<nat>, after: seq<nat>)
    requires m.Fork? && i < |m.nodes| && m.nodes[i].Tip?
    ensures LeavesOf(m) == before + [m.nodes[i].page] + after
    ensures LeavesOf(SplitFork(m, i, left, q, right)) == before + [m.nodes[i].page] + ([q] + after)
  {
    var x, y := Tip(m.nodes[i].page, left), Tip(q, right);
    before, after := LeavesIn(m.nodes[..i]), LeavesIn(m.nodes[i + 1..]);
    LeavesAround(m.nodes, i);
    InsertedParts(m.nodes, i, x, y);
    LeavesThree(m.nodes[..i], x, [y] + m.nodes[i + 1..]);
    LeavesSplit([y], m.nodes[i + 1..]);
    LeavesOne(y);
  }

  lemma InsertedAfter<E>(x: seq<E>, b: seq<E>, p: E, q: E, a: seq<E>, y: seq<E>)
    ensures var s := x + (b + [p] + a) + y;
            var k := |x + b|;
            k < |s| && s[k] == p && Inserted(s, k + 1, q) == x + (b + [p] + ([q] + a)) + y
  {
  }

  /** In the whole tree too. */
  lemma GraftLeaves(n: Node, up: seq<nat>, i: nat, left: seq<Entry>, q: nat, right: seq<Entry>) returns (k: nat)
    requires IsPath(n, up) && Sub(n, up).Fork? && i < |Sub(n, up).nodes| && Sub(n, up).nodes[i].Tip?
    ensures k < |LeavesOf(n)| && LeavesOf(n)[k] == Sub(n, up).nodes[i].page
    ensures LeavesOf(Grafted(n, up, SplitFork(Sub(n, up), i, left, q, right))) == Inserted(LeavesOf(n), k + 1, q)
  {
    var m := Sub(n, up);
    var b, a := SplitLeaves(m, i, left, q, right);
    var x, y := LeavesGrafted(n, up, SplitFork(m, i, left, q, right));
    InsertedAfter(x, b, m.nodes[i].page, q, a, y);
    k := |x + b|;
  }

  /** What a split below a parent with room starts from. */
  ghost predicate Ready(pages: Pages, n: Node, key: bytes, route: seq<nat>, parent: nat, leaf: nat,
                        left: seq<Entry>, sep: bytes, q: nat, right: seq<Entry>, sub: seq<Entry>) {
    && T.Stored(pages, n) && Apart(n) && route != [] && Parent(pages, n, key, route, parent, leaf) && Sub(n, route).Tip?
    && Halved(left, sep, right) && Swapped(Sub(n, route).entries, sub, left + right, key) && q !in pages && q != 0 && 0 !in pages
  }

  lemma {:induction false} SubApart(n: Node, path: seq<nat>)
    requires Apart(n) && IsPath(n, path)
    ensures Apart(Sub(n, path))
    decreases |path|
  {
    if path != [] {
      SubApart(n.nodes[path[0]], path[1..]);
    }
  }

  lemma ReadySplitting(pages: Pages, n: Node, key: bytes, route: seq<nat>, parent: nat, leaf: nat,
                       left: seq<Entry>, sep: bytes, q: nat, right: seq<Entry>, sub: seq<Entry>)
    requires Ready(pages, n, key, route, parent, leaf, left, sep, q, right, sub)
    ensures var m, i := Sub(n, route[..|route| - 1]), route[|route| - 1];
            && Splitting(pages, m, i, left, sep, right, sub, key) && m.page == parent && m.nodes[i] == Sub(n, route) && m.nodes[i].page == leaf
            && i < |pages[parent].kids| && i <= |pages[parent].seps|
            && (forall p :: Has(m, p) ==> Has(n, p))
  {
    var up := route[..|route| - 1];
    LeadsPath(pages, n, key, up);
    SubApart(n, up);
  }

  lemma SplitTree(pages: Pages, n: Node, key: bytes, route: seq<nat>, parent: nat, leaf: nat,
                  left: seq<Entry>, sep: bytes, q: nat, right: seq<Entry>, sub: seq<Entry>,
                  up: seq<nat>, i: nat, m: Node, m': Node, pages': Pages)
    requires Ready(pages, n, key, route, parent, leaf, left, sep, q, right, sub) && Linkable(pages, leaf)
    requires forall p :: p in pages && p != leaf ==> Keeps(pages, Relinked(pages, leaf, left, q, right), p)
    requires up == route[..|route| - 1] && i == route[|route| - 1] && m == Sub(n, up)
    requires i < |m.nodes| && i < |pages[parent].kids| && i <= |pages[parent].seps|
    requires m' == SplitFork(m, i, left, q, right) && pages' == SplitInto(pages, parent, i, leaf, left, sep, q, right)
    ensures Replaces(pages, pages', n, n, Grafted(n, up, m'), sub, key)
  {
    ReadySplitting(pages, n, key, route, parent, leaf, left, sep, q, right, sub);
    forall p | Has(n, p) ensures p in pages {
      HasStored(pages, n, p);
    }
    assert pages[leaf].Leaf? && pages[parent].Internal?;
    SplitReplaces(pages, pages', n, m, i, left, sep, q, right, sub, key);
    GraftReplaces(pages, pages', n, n, key, up, m', sub);
  }

  lemma SplitChain(pages: Pages, n: Node, up: seq<nat>, i: nat, parent: nat, leaf: nat, left: seq<Entry>, q: nat, right: seq<Entry>,
                   page: Page, m': Node)
    requires Chained(pages, LeavesOf(n)) && 0 !in pages && q !in pages && q != 0 && parent in pages && pages[parent].Internal?
    requires IsPath(n, up) && Sub(n, up).Fork? && i < |Sub(n, up).nodes| && Sub(n, up).nodes[i].Tip? && Sub(n, up).nodes[i].page == leaf
    requires m' == SplitFork(Sub(n, up), i, left, q, right)
    ensures Linkable(pages, leaf) && forall p :: p in pages && p != leaf ==> Keeps(pages, Relinked(pages, leaf, left, q, right), p)
    ensures var ls, ls' := LeavesOf(n), LeavesOf(Grafted(n, up, m'));
            && Chained(Relinked(pages, leaf, left, q, right)[parent := page], ls')
            && ls'[0] == ls[0] && ls'[|ls'| - 1] == if pages[leaf].next == 0 then q else ls[|ls| - 1]
  {
    var ls := LeavesOf(n);
    var k := GraftLeaves(n, up, i, left, q, right);
    ChainSplit(pages, ls, k, left, q, right);
    assert Links(pages, ls, k);
    var ls' := Inserted(ls, k + 1, q);
    forall x | x in ls' ensures x != parent {
      var j :| 0 <= j < |ls'| && ls'[j] == x;
      assert j != k + 1 ==> Links(pages, ls, if j <= k then j else j - 1);
    }
    ChainKept(Relinked(pages, leaf, left, q, right), ls', parent, page);
    assert k < |ls| - 1 ==> ls[k + 1] in pages by {
      if k < |ls| - 1 {
        assert Links(pages, ls, k + 1);
      }
    }
  }

  lemma SplitSized(pages: Pages, parent: nat, i: nat, leaf: nat, left: seq<Entry>, sep: bytes, q: nat, right: seq<Entry>)
    requires AllSized(pages) && Linkable(pages, leaf) && Sum(left) <= ROOM && Sum(right) <= ROOM && 0 !in pages && q != 0
    requires parent in pages && pages[parent].Internal? && i < |pages[parent].kids| && i <= |pages[parent].seps|
    requires Used(pages[parent].seps) + PER_CHILD + |sep| <= INNER
    ensures var pages' := SplitInto(pages, parent, i, leaf, left, sep, q, right); AllSized(pages') && 0 !in pages'
  {
    UsedInserted(pages[parent].seps, i, sep);
    assert AllSized(Relinked(pages, leaf, left, q, right));
  }

  /** The separator belongs right after the child that is split, and the pages it touches are there. */
  lemma SplitPlaced(pages: Pages, root: nat, rightmost: nat, n: Node, key: bytes, route: seq<nat>, parent: nat, leaf: nat,
                    left: seq<Entry>, sep: bytes, q: nat, right: seq<Entry>, sub: seq<Entry>)
    requires Sound(pages, root, rightmost, n) && Ready(pages, n, key, route, parent, leaf, left, sep, q, right, sub)
    ensures var m, i := Sub(n, route[..|route| - 1]), route[|route| - 1];
            && Linkable(pages, leaf) && i < |m.nodes| && m.nodes[i].Tip? && m.nodes[i].page == leaf
            && i < |pages[parent].kids| && i <= |pages[parent].seps| && Routes(pages[parent].seps, sep, i)
  {
    var up, i := route[..|route| - 1], route[|route| - 1];
    ReadySplitting(pages, n, key, route, parent, leaf, left, sep, q, right, sub);
    SplitSeps(pages, Sub(n, up), i, left, sep, right, sub, key);
    SplitChain(pages, n, up, i, parent, leaf, left, q, right, pages[parent], SplitFork(Sub(n, up), i, left, q, right));
  }

  /** Splitting the leaf of a key below a parent with room. */
  lemma LeafSplit(pages: Pages, root: nat, rightmost: nat, n: Node, key: bytes, route: seq<nat>, parent: nat, leaf: nat,
                  left: seq<Entry>, sep: bytes, q: nat, right: seq<Entry>, sub: seq<Entry>,
                  up: seq<nat>, i: nat, m: Node, m': Node, pages': Pages)
    requires Sound(pages, root, rightmost, n) && Ready(pages, n, key, route, parent, leaf, left, sep, q, right, sub)
    requires Sum(left) <= ROOM && Sum(right) <= ROOM && Used(pages[parent].seps) + PER_CHILD + |sep| <= INNER
    requires up == route[..|route| - 1] && i == route[|route| - 1] && m == Sub(n, up)
    requires Linkable(pages, leaf) && i < |m.nodes| && m.nodes[i].Tip? && m.nodes[i].page == leaf && i < |pages[parent].kids| && i <= |pages[parent].seps|
    requires m' == SplitFork(m, i, left, q, right) && pages' == SplitInto(pages, parent, i, leaf, left, sep, q, right)
    ensures Sound(pages', root, if pages[leaf].next == 0 then q else rightmost, Grafted(n, up, m'))
    ensures Swapped(Items(n), sub, Items(Grafted(n, up, m')), key)
  {
    SplitChain(pages, n, up, i, parent, leaf, left, q, right, pages'[parent], m');
    SplitTree(pages, n, key, route, parent, leaf, left, sep, q, right, sub, up, i, m, m', pages');
    SplitSized(pages, parent, i, leaf, left, sep, q, right);
  }

  // ---- a leaf that is the root is split --------------------------------------------------------------------------

  lemma RootReplaced(pages: Pages, root: nat, rightmost: nat, entries: seq<Entry>, left: seq<Entry>, sep: bytes, q: nat, right: seq<Entry>,
                     top: nat, sub: seq<Entry>, key: bytes)
    requires Sound(pages, root, rightmost, Tip(root, entries)) && Halved(left, sep, right) && Swapped(entries, sub, left + right, key)
    requires q !in pages && top !in pages && q != top && q != 0 && top != 0
    requires Sum(left) <= ROOM && Sum(right) <= ROOM && PER_CHILD + |sep| <= INNER
    ensures Linkable(pages, root)
    ensures var pages' := Relinked(pages, root, left, q, right)[top := Internal([root, q], [sep])];
            var n' := Fork(top, [Tip(root, left), Tip(q, right)]);
            Sound(pages', top, q, n') && Swapped(entries, sub, Items(n'), key)
  {
    RootChain(pages, root, left, sep, q, right, top);
    var pages' := Relinked(pages, root, left, q, right)[top := Internal([root, q], [sep])];
    RootSplit(pages', root, left, sep, q, right, top);
    RootSized(pages, root, left, sep, q, right, top);
  }

  lemma RootChain(pages: Pages, root: nat, left: seq<Entry>, sep: bytes, q: nat, right: seq<Entry>, top: nat)
    requires Chained(pages, [root]) && 0 !in pages && q !in pages && top !in pages && q != top && q != 0
    ensures Linkable(pages, root) && Chained(Relinked(pages, root, left, q, right)[top := Internal([root, q], [sep])], [root, q])
  {
    ChainSplit(pages, [root], 0, left, q, right);
    assert Inserted([root], 1, q) == [root, q];
    assert Links(pages, [root], 0);
    ChainKept(Relinked(pages, root, left, q, right), [root, q], top, Internal([root, q], [sep]));
  }

  lemma RootSized(pages: Pages, root: nat, left: seq<Entry>, sep: bytes, q: nat, right: seq<Entry>, top: nat)
    requires AllSized(pages) && Linkable(pages, root) && Sum(left) <= ROOM && Sum(right) <= ROOM && PER_CHILD + |sep| <= INNER
    requires 0 !in pages && q != 0 && top != 0
    ensures var pages' := Relinked(pages, root, left, q, right)[top := Internal([root, q], [sep])]; AllSized(pages') && 0 !in pages'
  {
    assert [sep][..0] == [];
    assert Used([sep]) == PER_CHILD + |sep|;
  }

  // ---- the store ----------------------------------------------------------------------------------------------------

  /** A put is done; or a half of the split would overflow its page; or the parent has no room for the separator. */
  datatype Put = Kept | Straddled | Full

  /** The entries after a put: the new one, and the old ones with other keys. */
  ghost predicate HasPut(was: seq<Entry>, e: Entry, now: seq<Entry>) {
    Swapped(was, [e], now, e.key)
  }

  /** The parent has no room for one more child with this separator. */
  ghost predicate Crowded(pages: Pages, parent: nat, separator: bytes) {
    parent in pages && pages[parent].Internal? && Used(pages[parent].seps) + PER_CHILD + |separator| > INNER
  }

  /** The separator stands between two neighbours of the list. */
  ghost predicate Parts(order: seq<Entry>, sep: bytes) {
    exists k :: 0 < k < |order| && Lex.Less(order[k - 1].key, sep) && Lex.Leq(sep, order[k].key)
  }

  /** The page above a leaf, if the leaf is not the root. */
  ghost predicate Hangs(pages: Pages, n: Node, leaf: nat, parent: nat) {
    n.Fork? ==> parent in pages && pages[parent].Internal? && leaf in pages[parent].kids
  }

  /** What the leaf of an entry has to hold once the entry is put. */
  ghost predicate AtLeafOf(pages: Pages, n: Node, e: Entry, order: seq<Entry>) {
    && Routable(pages, n)
    && var p := LeafFor(pages, n, e.key); p in pages && pages[p].Leaf? && Ordered(order) && HasPut(pages[p].entries, e, order)
  }

  lemma {:induction false} LeafForRoute(pages: Pages, n: Node, key: bytes, route: seq<nat>)
    requires T.Stored(pages, n) && Routable(pages, n) && Leads(pages, n, key, route) && IsPath(n, route) && Sub(n, route).Tip?
    ensures LeafFor(pages, n, key) == Sub(n, route).page
    decreases |route|
  {
    if route != [] {
      var seps := pages[n.page].seps;
      RouteIs(seps, key);
      OneRoute(seps, key, route[0], RouteOf(seps, key));
      LeafForRoute(pages, n.nodes[route[0]], key, route[1..]);
    }
  }

  lemma StrippedOrder(entries: seq<Entry>, rest: seq<Entry>, pos: nat, e: Entry)
    requires Ordered(rest) && Splits(rest, e.key, pos) && Swapped(entries, [], rest, e.key)
    ensures Ordered(Inserted(rest, pos, e)) && forall i :: 0 <= i < |rest| ==> rest[i].key != e.key
  {
    forall i | 0 <= i < |rest| ensures rest[i].key != e.key {
      assert rest[i] in rest;
    }
    OrderedInserted(rest, e.key, pos, e);
  }

  lemma SplitsOnce(entries: seq<Entry>, key: bytes, i: nat, j: nat)
    requires Splits(entries, key, i) && Splits(entries, key, j)
    ensures i == j
  {
    var k := if i <= j then i else j;
    assert k < |entries| ==> entries[k].key == entries[k].key;
  }

  /** Cuts what a leaf has to hold in two. */
  method Cut(ghost entries: seq<Entry>, rest: seq<Entry>, e: Entry, ghost pos: nat) returns (left: seq<Entry>, sep: bytes, right: seq<Entry>)
    requires Ordered(rest) && Splits(rest, e.key, pos) && Swapped(entries, [], rest, e.key)
    requires Sum(rest) <= ROOM && Cost(e) <= ROOM && Sum(rest) + Cost(e) > ROOM
    ensures Halved(left, sep, right) && Swapped(entries, [e], left + right, e.key)
    ensures Sum(right) <= ROOM && (Sum(left) <= ROOM <==> !Straddles(Inserted(rest, pos, e))) && PER_CHILD + |sep| <= INNER
    ensures Parts(Inserted(rest, pos, e), sep)
  {
    StrippedOrder(entries, rest, pos, e);
    var split;
    ghost var at;
    split, at := SplitLeaf(rest, e);
    SplitsOnce(rest, e.key, pos, at);
    InsertedSwapped(entries, rest, pos, e);
    left, sep, right := split.left, split.separator, split.right;
    assert |sep| <= |right[0].key| by {
      assert (left + right)[|left| - 1] == left[|left| - 1] && (left + right)[|left|] == right[0];
      assert Lex.Less(left[|left| - 1].key, right[0].key) && Lex.Leq(right[0].key, right[0].key);
    }
    ShortKey(right);
    CutParts(left, sep, right, Inserted(rest, pos, e));
  }

  lemma CutParts(left: seq<Entry>, sep: bytes, right: seq<Entry>, order: seq<Entry>)
    requires Halved(left, sep, right) && order == left + right
    ensures Parts(order, sep)
  {
    assert order[|left| - 1] == left[|left| - 1] && order[|left|] == right[0];
  }

  lemma ShortKey(entries: seq<Entry>)
    requires entries != [] && Sum(entries) <= ROOM
    ensures PER_CHILD + |entries[0].key| <= INNER
  {
    CostBound(entries, 0);
  }

  class Tree {
    var pages: Pages
    var root: nat
    var rightmost: nat
    ghost var shape: Node

    ghost predicate Valid()
      reads this
    {
      Sound(pages, root, rightmost, shape)
    }

    /** The entries in key order. */
    ghost function Entries(): seq<Entry>
      reads this
    {
      Items(shape)
    }

    /** An empty tree: page one is the root and its only leaf. */
    constructor ()
      ensures Valid() && Entries() == [] && root == 1
    {
      pages, root, rightmost, shape := map[1 := Leaf([], 0, 0)], 1, 1, Tip(1, []);
    }

    method Become(p: Pages, r: nat, last: nat, ghost n: Node)
      requires Sound(p, r, last, n)
      modifies this
      ensures Valid() && pages == p && root == r && rightmost == last && shape == n
    {
      pages, root, rightmost, shape := p, r, last, n;
    }

    /** The entry with the key, if the tree holds one. */
    method Get(key: bytes) returns (r: Option<Entry>)
      requires Valid()
      ensures r.Some? ==> r.value in Entries() && r.value.key == key
      ensures r.None? ==> !Holds(Entries(), key)
    {
      r := T.Get(pages, root, key, shape);
    }

    /** Removes the entry with the key; its leaf stays even if nothing is left in it. */
    method Delete(key: bytes) returns (found: bool)
      requires Valid()
      modifies this
      ensures Valid() && root == old(root) && pages.Keys == old(pages.Keys)
      ensures found == Holds(old(Entries()), key) && Swapped(old(Entries()), [], Entries(), key)
    {
      var leaf, path;
      ghost var route;
      leaf, path, route := Descend(pages, root, key, shape);
      var rest, pos;
      rest, pos, found := Stripped(pages[leaf].entries, key);
      LeafWritten(pages, root, rightmost, shape, key, route, rest, []);
      HeldBelow(pages, shape, key, route);
      Become(Written(pages, leaf, rest), root, rightmost, Grafted(shape, route, Tip(leaf, rest)));
    }

    /** Splits the leaf that is the root, below a new root. */
    method SplitRoot(e: Entry, left: seq<Entry>, sep: bytes, right: seq<Entry>, spare: nat, top: nat)
      requires Valid() && shape.Tip? && Halved(left, sep, right) && Swapped(shape.entries, [e], left + right, e.key)
      requires spare !in pages && top !in pages && spare != top && spare != 0 && top != 0
      requires Sum(left) <= ROOM && Sum(right) <= ROOM && PER_CHILD + |sep| <= INNER
      modifies this
      ensures Valid() && HasPut(old(Entries()), e, Entries())
    {
      RootReplaced(pages, root, rightmost, shape.entries, left, sep, spare, right, top, [e], e.key);
      Become(Relinked(pages, root, left, spare, right)[top := Internal([root, spare], [sep])], top, spare,
             Fork(top, [Tip(root, left), Tip(spare, right)]));
    }

    /** Splits a leaf below a parent that has room for the separator. */
    method SplitBelow(e: Entry, parent: nat, leaf: nat, left: seq<Entry>, sep: bytes, right: seq<Entry>, spare: nat, ghost route: seq<nat>)
      requires Valid() && Ready(pages, shape, e.key, route, parent, leaf, left, sep, spare, right, [e])
      requires Sum(left) <= ROOM && Sum(right) <= ROOM && Used(pages[parent].seps) + PER_CHILD + |sep| <= INNER
      modifies this
      ensures Valid() && HasPut(old(Entries()), e, Entries())
    {
      SplitPlaced(pages, root, rightmost, shape, e.key, route, parent, leaf, left, sep, spare, right, [e]);
      ghost var up, j := route[..|route| - 1], route[|route| - 1];
      assert Ascending(pages[parent].seps) by {
        LeadsPath(pages, shape, e.key, up);
      }
      var i := Search(pages[parent].seps, sep);
      OneRoute(pages[parent].seps, sep, i, j);
      ghost var m := Sub(shape, up);
      ghost var m' := SplitFork(m, i, left, spare, right);
      var pages' := SplitInto(pages, parent, i, leaf, left, sep, spare, right);
      LeafSplit(pages, root, rightmost, shape, e.key, route, parent, leaf, left, sep, spare, right, [e], up, i, m, m', pages');
      Become(pages', root, if pages[leaf].next == 0 then spare else rightmost, Grafted(shape, up, m'));
    }

    /** Splits the leaf of an entry that does not fit it. */
    method Divide(e: Entry, leaf: nat, path: seq<nat>, rest: seq<Entry>, spare: nat, top: nat, ghost route: seq<nat>, ghost pos: nat)
      returns (r: Put, ghost parent: nat, ghost separator: bytes)
      requires Valid() && Arrived(pages, shape, e.key, path, leaf, route) && Sub(shape, route).Tip?
      requires Ordered(rest) && Splits(rest, e.key, pos) && Swapped(Sub(shape, route).entries, [], rest, e.key)
      requires Sum(rest) <= ROOM && Cost(e) <= ROOM && Sum(rest) + Cost(e) > ROOM
      requires spare !in pages && top !in pages && spare != top && spare != 0 && top != 0
      modifies this
      ensures r.Kept? ==> Valid() && HasPut(old(Entries()), e, Entries())
      ensures !r.Kept? ==> unchanged(this)
      ensures r.Straddled? <==> Straddles(Inserted(rest, pos, e))
      ensures r.Full? <==> !Straddles(Inserted(rest, pos, e)) && old(shape).Fork? && Crowded(old(pages), parent, separator)
      ensures Parts(Inserted(rest, pos, e), separator) && Hangs(old(pages), old(shape), leaf, parent)
    {
      var left, sep, right := Cut(Sub(shape, route).entries, rest, e, pos);
      parent, separator := if path == [] then 0 else path[|path| - 1], sep;
      if path != [] {
        LeadsPath(pages, shape, e.key, route[..|route| - 1]);
      }
      if Sum(left) > ROOM {
        r := Straddled;
      } else if path == [] {
        SplitRoot(e, left, sep, right, spare, top);
        r := Kept;
      } else if Used(pages[path[|path| - 1]].seps) + PER_CHILD + |sep| > INNER {
        r := Full;
      } else {
        SplitBelow(e, path[|path| - 1], leaf, left, sep, right, spare, route);
        r := Kept;
      }
    }

    /**
     Puts an entry in place of the one with its key, or where its key belongs. `order` is what its leaf then
     has to hold: it is written back if it fits, and split in two otherwise, with `separator` between the halves and
     `parent` above them. `spare` and `top` are unused pages.
     */
    method Put(e: Entry, spare: nat, top: nat) returns (r: Put, ghost order: seq<Entry>, ghost parent: nat, ghost separator: bytes)
      requires Valid() && Cost(e) <= ROOM && spare !in pages && top !in pages && spare != top && spare != 0 && top != 0
      modifies this
      ensures r.Kept? ==> Valid() && HasPut(old(Entries()), e, Entries())
      ensures !r.Kept? ==> unchanged(this)
      ensures AtLeafOf(old(pages), old(shape), e, order)
      ensures r.Straddled? <==> Sum(order) > ROOM && Straddles(order)
      ensures r.Full? <==> Sum(order) > ROOM && !Straddles(order) && old(shape).Fork? && Crowded(old(pages), parent, separator)
      ensures Sum(order) > ROOM ==> Parts(order, separator) && Hangs(old(pages), old(shape), LeafFor(old(pages), old(shape), e.key), parent)
    {
      var leaf, path;
      ghost var route;
      leaf, path, route := Descend(pages, root, e.key, shape);
      var rest, pos, found := Stripped(pages[leaf].entries, e.key);
      order := Inserted(rest, pos, e);
      SumInserted(rest, pos, e);
      InsertedSwapped(pages[leaf].entries, rest, pos, e);
      StrippedOrder(pages[leaf].entries, rest, pos, e);
      StoredRoutable(pages, shape);
      LeafForRoute(pages, shape, e.key, route);
      if Sum(rest) + Cost(e) <= ROOM {
        LeafWritten(pages, root, rightmost, shape, e.key, route, order, [e]);
        var all := Inserted(rest, pos, e);
        Become(Written(pages, leaf, all), root, rightmost, Grafted(shape, route, Tip(leaf, all)));
        return Kept, order, 0, [];
      }
      r, parent, separator := Divide(e, leaf, path, rest, spare, top, route, pos);
    }
  }
}
