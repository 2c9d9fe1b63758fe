/** Changing one leaf of a stored tree, or splitting it below its parent, and what that does to the whole. */
module TreeEdits {
  import opened Base
  import opened Bytes
  import opened LeafPages
  import opened BTrees
  import T = BTrees
  import Lex

  // ---- the order of a stored tree ---------------------------------------------------------------

  lemma SepsOrder(seps: seq<bytes>, i: nat, j: nat)
    requires Ascending(seps) && i <= j < |seps|
    ensures Lex.Leq(seps[i], seps[j])
  {
  }

  /** Everything below an earlier child comes before everything below a later one. */
  lemma Across(pages: Pages, n: Node, i: nat, j: nat, e: Entry, f: Entry)
    requires T.Stored(pages, n) && n.Fork? && i < j < |n.nodes| && e in Items(n.nodes[i]) && f in Items(n.nodes[j])
    ensures Lex.Less(e.key, f.key)
  {
    var seps := pages[n.page].seps;
    assert T.Between(seps[i], n.nodes[i], n.nodes[i + 1]) && T.Between(seps[j - 1], n.nodes[j - 1], n.nodes[j]);
    SepsOrder(seps, i, j - 1);
    Lex.LeqLess(e.key, seps[i], seps[j - 1]);
    Lex.LeqLess(e.key, seps[j - 1], f.key);
  }

  lemma OrderedJoin(a: seq<Entry>, b: seq<Entry>)
    requires Ordered(a) && Ordered(b) && forall e, f :: e in a && f in b ==> Lex.Less(e.key, f.key)
    ensures Ordered(a + b)
  {
    forall i, j | 0 <= i < j < |a + b| ensures Lex.Less((a + b)[i].key, (a + b)[j].key) {
      if i < |a| <= j {
        assert a[i] in a && b[j - |a|] in b;
      }
    }
  }

  lemma FirstBefore(pages: Pages, n: Node, k: nat, e: Entry, f: Entry)
    requires T.Stored(pages, n) && n.Fork? && k < |n.nodes| && e in Concat(n.nodes[..k]) && f in Items(n.nodes[k])
    ensures Lex.Less(e.key, f.key)
  {
    InConcat(n.nodes[..k], e);
    var i :| 0 <= i < k && e in Items(n.nodes[..k][i]);
    Across(pages, n, i, k, e, f);
  }

  lemma {:induction false} OrderedFirst(pages: Pages, n: Node, k: nat)
    requires T.Stored(pages, n) && n.Fork? && k <= |n.nodes| && forall i :: 0 <= i < |n.nodes| ==> Ordered(Items(n.nodes[i]))
    ensures Ordered(Concat(n.nodes[..k]))
    decreases k
  {
    if k > 0 {
      OrderedFirst(pages, n, k - 1);
      var a, b := Concat(n.nodes[..k - 1]), Items(n.nodes[k - 1]);
      assert n.nodes[..k] == n.nodes[..k - 1] + [n.nodes[k - 1]];
      ConcatMore(n.nodes[..k - 1], n.nodes[k - 1]);
      forall e, f | e in a && f in b ensures Lex.Less(e.key, f.key) {
        FirstBefore(pages, n, k - 1, e, f);
      }
      OrderedJoin(a, b);
    }
  }

  /** The entries of a stored tree are in order. */
  lemma {:induction false} StoredOrdered(pages: Pages, n: Node)
    requires T.Stored(pages, n)
    ensures Ordered(Items(n))
    decreases n
  {
    if n.Fork? {
      forall i | 0 <= i < |n.nodes| ensures Ordered(Items(n.nodes[i])) {
        StoredOrdered(pages, n.nodes[i]);
      }
      OrderedFirst(pages, n, |n.nodes|);
      assert n.nodes[..|n.nodes|] == n.nodes;
    }
  }

  // ---- replacing a subtree ------------------------------------------------------------------------

  /** Entries with other keys are those of `was`, entries with this key those of `sub`. */
  ghost predicate Swapped(was: seq<Entry>, sub: seq<Entry>, now: seq<Entry>, key: bytes) {
    forall f :: f in now <==> if f.key == key then f in sub else f in was
  }

  /** In a tree with the pages of `n`, `m'` takes the place of `m`, and they differ only in what they hold for the key. */
  ghost predicate Replaces(pages: Pages, pages': Pages, n: Node, m: Node, m': Node, sub: seq<Entry>, key: bytes) {
    && T.Stored(pages', m') && m'.page == m.page && Apart(m') && Swapped(Items(m), sub, Items(m'), key)
    && (forall p :: Has(n, p) && !Has(m, p) ==> Keeps(pages, pages', p))
    && (forall p :: Has(m', p) && !Has(m, p) ==> !Has(n, p))
  }

  /** The node with one child replaced. */
  function WithChild(n: Node, i: nat, c: Node): Node
    requires n.Fork? && i < |n.nodes|
  {
    Fork(n.page, n.nodes[i := c])
  }

  /** No sibling of the child a key is routed to holds an entry with the key. */
  lemma NotBeside(pages: Pages, n: Node, key: bytes, i: nat, j: nat, e: Entry)
    requires T.Stored(pages, n) && n.Fork? && Routes(pages[n.page].seps, key, i) && j < |n.nodes| && e in Items(n.nodes[j]) && e.key == key
    ensures i == j
  {
    var seps := pages[n.page].seps;
    if j < i {
      assert T.Between(seps[j], n.nodes[j], n.nodes[j + 1]);
      Lex.Total(e.key, seps[j]);
    } else if j > i {
      assert T.Between(seps[j - 1], n.nodes[j - 1], n.nodes[j]);
      Lex.Total(e.key, seps[j - 1]);
    }
  }

  lemma ChildSwapped(pages: Pages, n: Node, key: bytes, i: nat, c: Node, sub: seq<Entry>)
    requires T.Stored(pages, n) && n.Fork? && i < |n.nodes| && Routes(pages[n.page].seps, key, i)
    requires Swapped(Items(n.nodes[i]), sub, Items(c), key)
    ensures Swapped(Items(n), sub, Items(WithChild(n, i, c)), key)
  {
    var nodes' := n.nodes[i := c];
    forall f ensures f in Concat(nodes') <==> if f.key == key then f in sub else f in Concat(n.nodes) {
      InConcat(n.nodes, f);
      InConcat(nodes', f);
      if f in Concat(nodes') {
        var j :| 0 <= j < |nodes'| && f in Items(nodes'[j]);
        if f.key == key && j != i {
          NotBeside(pages, n, key, i, j, f);
        }
        assert f.key != key ==> f in Items(n.nodes[j]);
      }
      if f.key == key && f in sub {
        assert f in Items(nodes'[i]);
      }
      if f.key != key && f in Concat(n.nodes) {
        var j :| 0 <= j < |n.nodes| && f in Items(n.nodes[j]);
        assert f in Items(nodes'[j]);
      }
    }
  }

  /** A separator keeps separating when only entries with a key on its side change. */
  lemma BetweenSwapped(sep: bytes, a: Node, b: Node, c: Node, sub: seq<Entry>, key: bytes)
    requires T.Between(sep, a, b)
    ensures Swapped(Items(a), sub, Items(c), key) && Lex.Less(key, sep) ==> T.Between(sep, c, b)
    ensures Swapped(Items(b), sub, Items(c), key) && Lex.Leq(sep, key) ==> T.Between(sep, a, c)
  {
  }

  lemma ChildStored(pages: Pages, pages': Pages, n: Node, key: bytes, i: nat, c: Node, sub: seq<Entry>)
    requires T.Stored(pages, n) && n.Fork? && Apart(n) && i < |n.nodes| && Routes(pages[n.page].seps, key, i)
    requires Replaces(pages, pages', n, n.nodes[i], c, sub, key)
    ensures T.Stored(pages', WithChild(n, i, c))
  {
    var seps, nodes' := pages[n.page].seps, n.nodes[i := c];
    assert Has(n, n.page) && !Has(n.nodes[i], n.page);
    assert pages'[n.page] == pages[n.page];
    forall j | 0 <= j < |nodes'| ensures pages[n.page].kids[j] == nodes'[j].page && T.Stored(pages', nodes'[j]) {
      if j != i {
        SiblingKept(pages, pages', n, i, j);
      }
    }
    forall j, k | 0 <= j < k < |nodes'| && k == j + 1 ensures T.Between(seps[j], nodes'[j], nodes'[k]) {
      assert T.Between(seps[j], n.nodes[j], n.nodes[k]);
      BetweenSwapped(seps[j], n.nodes[j], n.nodes[k], c, sub, key);
    }
  }

  lemma SiblingKept(pages: Pages, pages': Pages, n: Node, i: nat, j: nat)
    requires T.Stored(pages, n) && n.Fork? && Apart(n) && i < |n.nodes| && j < |n.nodes| && i != j
    requires forall p :: Has(n, p) && !Has(n.nodes[i], p) ==> Keeps(pages, pages', p)
    ensures T.Stored(pages', n.nodes[j])
  {
    assert Disjoint(n.nodes[if i < j then i else j], n.nodes[if i < j then j else i]);
    forall p | Has(n.nodes[j], p) ensures Keeps(pages, pages', p) {
      assert Has(n, p);
    }
    T.StoredKept(pages, pages', n.nodes[j]);
  }

  lemma ChildApart(n: Node, i: nat, c: Node)
    requires n.Fork? && Apart(n) && i < |n.nodes| && Apart(c) && forall p :: Has(c, p) && !Has(n.nodes[i], p) ==> !Has(n, p)
    ensures Apart(WithChild(n, i, c)) && forall p :: Has(WithChild(n, i, c), p) ==> Has(n, p) || Has(c, p)
  {
    var n' := WithChild(n, i, c);
    assert Has(n, n.page);
    forall j, k | 0 <= j < k < |n'.nodes| ensures Disjoint(n'.nodes[j], n'.nodes[k]) {
      assert Disjoint(n.nodes[j], n.nodes[k]);
      forall p ensures !(Has(n'.nodes[j], p) && Has(n'.nodes[k], p)) {
        assert j != i && Has(n.nodes[j], p) ==> Has(n, p);
        assert k != i && Has(n.nodes[k], p) ==> Has(n, p);
      }
    }
    forall p | Has(n', p) ensures Has(n, p) || Has(c, p) {
      if p != n'.page {
        var j :| 0 <= j < |n'.nodes| && Has(n'.nodes[j], p);
        assert j != i ==> Has(n.nodes[j], p);
      }
    }
  }

  /** One level up: the parent with the new child takes the place of the parent. */
  lemma ChildReplaces(pages: Pages, pages': Pages, r: Node, n: Node, key: bytes, i: nat, c: Node, sub: seq<Entry>)
    requires T.Stored(pages, n) && n.Fork? && Apart(n) && i < |n.nodes| && Routes(pages[n.page].seps, key, i)
    requires (forall p :: Has(n, p) ==> Has(r, p)) && Replaces(pages, pages', r, n.nodes[i], c, sub, key)
    ensures Replaces(pages, pages', r, n, WithChild(n, i, c), sub, key)
  {
    assert forall p :: Has(n.nodes[i], p) ==> Has(n, p);
    ChildStored(pages, pages', n, key, i, c, sub);
    ChildApart(n, i, c);
    ChildSwapped(pages, n, key, i, c, sub);
  }

  // ---- along a path ----------------------------------------------------------------------------------

  /** The path leads down from the node the way the key is routed. */
  ghost predicate Leads(pages: Pages, n: Node, key: bytes, path: seq<nat>)
    requires T.Stored(pages, n)
    decreases n
  {
    path == [] || (n.Fork? && path[0] < |n.nodes| && Routes(pages[n.page].seps, key, path[0]) && Leads(pages, n.nodes[path[0]], key, path[1..]))
  }

  ghost predicate IsPath(n: Node, path: seq<nat>)
    decreases |path|
  {
    path == [] || (n.Fork? && path[0] < |n.nodes| && IsPath(n.nodes[path[0]], path[1..]))
  }

  /** The subtree at the end of a path. */
  ghost function Sub(n: Node, path: seq<nat>): Node
    requires IsPath(n, path)
    decreases |path|
  {
    if path == [] then n else Sub(n.nodes[path[0]], path[1..])
  }

  /** The tree with another subtree there. */
  ghost function Grafted(n: Node, path: seq<nat>, m: Node): Node
    requires IsPath(n, path)
    decreases |path|
  {
    if path == [] then m else WithChild(n, path[0], Grafted(n.nodes[path[0]], path[1..], m))
  }

  lemma {:induction false} LeadsPath(pages: Pages, n: Node, key: bytes, path: seq<nat>)
    requires T.Stored(pages, n) && Leads(pages, n, key, path)
    ensures IsPath(n, path) && T.Stored(pages, Sub(n, path)) && forall p :: Has(Sub(n, path), p) ==> Has(n, p)
    decreases |path|
  {
    if path != [] {
      LeadsPath(pages, n.nodes[path[0]], key, path[1..]);
    }
  }

  /** What changes a subtree only for a key routed to it changes the whole tree only for that key. */
  lemma {:induction false} GraftReplaces(pages: Pages, pages': Pages, r: Node, n: Node, key: bytes, path: seq<nat>, m: Node, sub: seq<Entry>)
    requires T.Stored(pages, n) && Apart(n) && Leads(pages, n, key, path) && IsPath(n, path)
    requires (forall p :: Has(n, p) ==> Has(r, p)) && Replaces(pages, pages', r, Sub(n, path), m, sub, key)
    ensures Replaces(pages, pages', r, n, Grafted(n, path, m), sub, key)
    decreases |path|
  {
    if path != [] {
      var c := n.nodes[path[0]];
      assert forall p :: Has(c, p) ==> Has(n, p);
      GraftReplaces(pages, pages', r, c, key, path[1..], m, sub);
      ChildReplaces(pages, pages', r, n, key, path[0], Grafted(c, path[1..], m), sub);
    }
  }

  // ---- the leaves from left to right --------------------------------------------------------------------

  function LeavesOf(n: Node): seq<nat> {
    match n
    case Tip(p, _) => [p]
    case Fork(_, nodes) => LeavesIn(nodes)
  }

  function LeavesIn(nodes: seq<Node>): seq<nat> {
    if nodes == [] then [] else LeavesIn(nodes[..|nodes| - 1]) + LeavesOf(nodes[|nodes| - 1])
  }

  lemma {:induction false} LeavesSplit(a: seq<Node>, b: seq<Node>)
    ensures LeavesIn(a + b) == LeavesIn(a) + LeavesIn(b)
    decreases |b|
  {
    if b == [] {
      assert a + b == a;
    } else {
      var front, last := b[..|b| - 1], b[|b| - 1];
      LeavesSplit(a, front);
      assert (a + b)[..|a + b| - 1] == a + front && (a + b)[|a + b| - 1] == last;
    }
  }

  lemma LeavesOne(n: Node)
    ensures LeavesIn([n]) == LeavesOf(n)
  {
    assert [n][..0] == [];
  }

  lemma LeavesAround(nodes: seq<Node>, i: nat)
    requires i < |nodes|
    ensures LeavesIn(nodes) == LeavesIn(nodes[..i]) + LeavesOf(nodes[i]) + LeavesIn(nodes[i + 1..])
  {
    Around(nodes, i);
    LeavesThree(nodes[..i], nodes[i], nodes[i + 1..]);
  }

  lemma Around<E>(s: seq<E>, i: nat)
    requires i < |s|
    ensures s == s[..i] + [s[i]] + s[i + 1..]
  {
  }

  lemma LeavesThree(a: seq<Node>, n: Node, b: seq<Node>)
    ensures LeavesIn(a + [n] + b) == LeavesIn(a) + LeavesOf(n) + LeavesIn(b)
  {
    LeavesSplit(a + [n], b);
    LeavesSplit(a, [n]);
    LeavesOne(n);
  }

  lemma Regroup<E>(x: seq<E>, b: seq<E>, m: seq<E>, a: seq<E>, y: seq<E>)
    ensures x + (b + m + a) + y == (x + b) + m + (a + y)
  {
  }

  lemma LeavesBeside(nodes: seq<Node>, i: nat, c: Node)
    requires i < |nodes|
    ensures LeavesIn(nodes[i := c]) == LeavesIn(nodes[..i]) + LeavesOf(c) + LeavesIn(nodes[i + 1..])
  {
    var nodes' := nodes[i := c];
    LeavesAround(nodes', i);
    assert nodes'[..i] == nodes[..i];
    assert nodes'[i + 1..] == nodes[i + 1..];
  }

  /** A graft leaves the leaves on both sides of it where they were. */
  lemma {:induction false} LeavesGrafted(n: Node, path: seq<nat>, m: Node) returns (before: seq<nat>, after: seq<nat>)
    requires IsPath(n, path)
    ensures LeavesOf(n) == before + LeavesOf(Sub(n, path)) + after
    ensures LeavesOf(Grafted(n, path, m)) == before + LeavesOf(m) + after
    decreases |path|
  {
    if path == [] {
      before, after := [], [];
    } else {
      var i := path[0];
      var c := n.nodes[i];
      var b, a := LeavesGrafted(c, path[1..], m);
      var x, y := LeavesIn(n.nodes[..i]), LeavesIn(n.nodes[i + 1..]);
      LeavesAround(n.nodes, i);
      LeavesBeside(n.nodes, i, Grafted(c, path[1..], m));
      Regroup(x, b, LeavesOf(Sub(n, path)), a, y);
      Regroup(x, b, LeavesOf(m), a, y);
      before, after := x + b, a + y;
    }
  }
}
