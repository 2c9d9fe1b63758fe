/**
 The order of a text. Each character that can be read hangs, through its anchors, from the head
 of the document; the chain of anchors fixes its place.
 */
module TextOrders {
  import opened Base
  import opened Stamps
  import opened Texts

  type Chain = seq<TextId>

  predicate Holds(d: Doc, id: TextId) {
    id in d && d[id].content.Some?
  }

  function AnchorOf(d: Doc, id: TextId): Option<TextId>
    requires Holds(d, id)
  {
    d[id].content.value.after
  }

  function Tip(c: Chain): Option<TextId> {
    if c == [] then None else Some(c[|c| - 1])
  }

  /** The chain leads from the head, anchor by anchor; the empty chain is the head itself. */
  predicate IsChain(d: Doc, c: Chain) {
    forall i :: 0 <= i < |c| ==> Holds(d, c[i]) && AnchorOf(d, c[i]) == Tip(c[..i])
  }

  /** Not deleted, or deleted only by operations it is not older than. */
  predicate Shown(d: Doc, id: TextId) {
    Holds(d, id) && (d[id].deletedAt.None? || Less(d[id].deletedAt.value, id.stamp))
  }

  /** Depth first, later siblings first. */
  predicate Before(c: Chain, e: Chain) {
    if e == [] then false
    else if c == [] then true
    else if c[0] == e[0] then Before(c[1..], e[1..])
    else IdLess(e[0], c[0])
  }

  ghost predicate Sorted(s: seq<Chain>) {
    forall i, j :: 0 <= i < j < |s| ==> Before(s[i], s[j])
  }

  /** `ids` are the characters shown, each once and in order, with the chain of each. */
  ghost predicate Lists(d: Doc, ids: seq<TextId>, chains: seq<Chain>) {
    && |ids| == |chains| && Sorted(chains)
    && (forall i :: 0 <= i < |ids| ==> Tip(chains[i]) == Some(ids[i]))
    && forall c :: c in chains <==> IsChain(d, c) && c != [] && Shown(d, c[|c| - 1])
  }

  // ---- the order is strict and total --------------------------------------------

  lemma {:induction false} BeforeTotal(c: Chain, e: Chain)
    ensures Before(c, e) || c == e || Before(e, c)
    ensures !(Before(c, e) && Before(e, c)) && !Before(c, c)
  {
    if c != [] {
      BeforeTotal(c[1..], if e != [] && e[0] == c[0] then e[1..] else c[1..]);
      if e != [] && e[0] == c[0] {
        assert c == [c[0]] + c[1..] && e == [e[0]] + e[1..];
      }
    }
  }

  lemma {:induction false} BeforeTransitive(a: Chain, b: Chain, c: Chain)
    requires Before(a, b) && Before(b, c)
    ensures Before(a, c)
  {
    if a != [] && a[0] == b[0] == c[0] {
      BeforeTransitive(a[1..], b[1..], c[1..]);
    }
  }

  lemma {:induction false} BeforeCommon(p: Chain, c: Chain, e: Chain)
    ensures Before(p + c, p + e) == Before(c, e)
  {
    if p == [] {
      assert p + c == c && p + e == e;
    } else {
      BeforeCommon(p[1..], c, e);
      assert (p + c)[1..] == p[1..] + c && (p + e)[1..] == p[1..] + e;
    }
  }

  predicate Extends(p: Chain, c: Chain) {
    |p| < |c| && p == c[..|p|]
  }

  lemma ParentBefore(q: Chain, e: Chain)
    requires Extends(q, e)
    ensures Before(q, e)
  {
    BeforeCommon(q, [], e[|q|..]);
    assert q == q + [] && e == q + e[|q|..];
  }

  lemma SortedConcat(s: seq<Chain>, t: seq<Chain>)
    requires Sorted(s) && Sorted(t) && forall c, e :: c in s && e in t ==> Before(c, e)
    ensures Sorted(s + t)
  {
    forall i, j | 0 <= i < j < |s + t| ensures Before((s + t)[i], (s + t)[j]) {
      if i < |s| <= j {
        assert s[i] in s && t[j - |s|] in t;
      }
    }
  }

  // ---- chains -----------------------------------------------------------------------

  lemma ChainPrefix(d: Doc, c: Chain, n: nat)
    requires IsChain(d, c) && n <= |c|
    ensures IsChain(d, c[..n])
  {
    forall i | 0 <= i < n ensures Holds(d, c[..n][i]) && AnchorOf(d, c[..n][i]) == Tip(c[..n][..i]) {
      assert c[..n][..i] == c[..i] && c[..n][i] == c[i];
    }
  }

  lemma ChainExtend(d: Doc, c: Chain, id: TextId)
    requires IsChain(d, c) && Holds(d, id) && AnchorOf(d, id) == Tip(c)
    ensures IsChain(d, c + [id])
  {
    forall i | 0 <= i <= |c| ensures Holds(d, (c + [id])[i]) && AnchorOf(d, (c + [id])[i]) == Tip((c + [id])[..i]) {
      assert (c + [id])[..i] == c[..i];
      assert c[..|c|] == c;
    }
  }

  /** Two states without conflict agree on the chain of any character both can reach. */
  lemma {:induction false} SameChain(d: Doc, e: Doc, c: Chain, f: Chain)
    requires !Conflicting(d, e) && IsChain(d, c) && IsChain(e, f) && Tip(c) == Tip(f)
    ensures c == f
    decreases |c|
  {
    if c != [] {
      var id := c[|c| - 1];
      assert !Conflict(d, e, id);
      ChainPrefix(d, c, |c| - 1);
      ChainPrefix(e, f, |f| - 1);
      SameChain(d, e, c[..|c| - 1], f[..|f| - 1]);
      assert c == c[..|c| - 1] + [id] && f == f[..|f| - 1] + [id];
    }
  }

  lemma OneChain(d: Doc, c: Chain, f: Chain)
    requires IsChain(d, c) && IsChain(d, f) && Tip(c) == Tip(f)
    ensures c == f
  {
    SameChain(d, d, c, f);
  }

  // ---- the list of shown characters ----------------------------------------------------

  lemma SortedAt(s: seq<Chain>, c: Chain)
    requires Sorted(s) && c in s && s[0] != c
    ensures Before(s[0], c)
  {
    var i :| 0 <= i < |s| && s[i] == c;
  }

  lemma SortedHead(s: seq<Chain>, t: seq<Chain>)
    requires Sorted(s) && Sorted(t) && s != [] && t != [] && s[0] in t && t[0] in s
    ensures s[0] == t[0]
  {
    if s[0] != t[0] {
      SortedAt(s, t[0]);
      SortedAt(t, s[0]);
      BeforeTotal(s[0], t[0]);
      assert false;
    }
  }

  lemma SortedTail(s: seq<Chain>, c: Chain)
    requires Sorted(s) && s != []
    ensures Sorted(s[1..]) && (c in s[1..] <==> c in s && c != s[0])
  {
    BeforeTotal(s[0], s[0]);
    if c in s && c != s[0] {
      var i :| 0 <= i < |s| && s[i] == c;
      assert s[1..][i - 1] == c;
    }
  }

  /** A set of chains has one sorted list. */
  lemma {:induction false} SortedUnique(s: seq<Chain>, t: seq<Chain>)
    requires Sorted(s) && Sorted(t) && forall c :: c in s <==> c in t
    ensures s == t
  {
    assert s != [] ==> s[0] in s && s[0] in t;
    assert t != [] ==> t[0] in t && t[0] in s;
    if s != [] && t != [] {
      SortedHead(s, t);
      forall c ensures c in s[1..] <==> c in t[1..] {
        SortedTail(s, c);
        SortedTail(t, c);
      }
      SortedTail(s, s[0]);
      SortedTail(t, t[0]);
      SortedUnique(s[1..], t[1..]);
      assert s == [s[0]] + s[1..] && t == [t[0]] + t[1..];
    }
  }

  /** What a state shows is determined by the state. */
  lemma ListsUnique(d: Doc, ids: seq<TextId>, chains: seq<Chain>, ids': seq<TextId>, chains': seq<Chain>)
    requires Lists(d, ids, chains) && Lists(d, ids', chains')
    ensures ids == ids' && chains == chains'
  {
    SortedUnique(chains, chains');
    forall i | 0 <= i < |ids| ensures ids[i] == ids'[i] {
      assert Tip(chains[i]) == Some(ids[i]) && Tip(chains'[i]) == Some(ids'[i]);
    }
  }

  /** A character hangs from the head. */
  ghost predicate Reachable(d: Doc, id: TextId) {
    exists c :: IsChain(d, c) && Tip(c) == Some(id)
  }

  /** Exactly the undeleted characters that hang from the head are listed, each once. */
  lemma ListedOnce(d: Doc, ids: seq<TextId>, chains: seq<Chain>)
    requires Lists(d, ids, chains)
    ensures forall id :: id in ids <==> Reachable(d, id) && Shown(d, id)
    ensures forall i, j :: 0 <= i < j < |ids| ==> ids[i] != ids[j]
  {
    forall id | Reachable(d, id) && Shown(d, id) ensures id in ids {
      var c :| IsChain(d, c) && Tip(c) == Some(id);
      assert c in chains;
      var i :| 0 <= i < |chains| && chains[i] == c;
      assert ids[i] == id;
    }
    forall id | id in ids ensures Reachable(d, id) && Shown(d, id) {
      var i :| 0 <= i < |ids| && ids[i] == id;
      assert chains[i] in chains;
    }
    forall i, j | 0 <= i < j < |ids| ensures ids[i] != ids[j] {
      assert chains[i] in chains && chains[j] in chains;
      BeforeTotal(chains[i], chains[j]);
      if ids[i] == ids[j] {
        OneChain(d, chains[i], chains[j]);
      }
    }
  }

  /**
   The order is stable: two characters shown by two states without conflict are in the same order
   in both, whatever else either state holds.
   */
  lemma OrderStable(d: Doc, ids: seq<TextId>, chains: seq<Chain>, e: Doc, ids': seq<TextId>, chains': seq<Chain>,
                    i: nat, j: nat, i': nat, j': nat)
    requires !Conflicting(d, e) && Lists(d, ids, chains) && Lists(e, ids', chains')
    requires i < |ids| && j < |ids| && i' < |ids'| && j' < |ids'| && ids[i] == ids'[i'] && ids[j] == ids'[j']
    ensures i < j <==> i' < j'
  {
    assert chains[i] in chains && chains[j] in chains && chains'[i'] in chains' && chains'[j'] in chains';
    SameChain(d, e, chains[i], chains'[i']);
    SameChain(d, e, chains[j], chains'[j']);
    BeforeTotal(chains[i], chains[j]);
    assert i != j ==> Before(chains[i], chains[j]) || Before(chains[j], chains[i]);
    assert i' != j' ==> Before(chains'[i'], chains'[j']) || Before(chains'[j'], chains'[i']);
  }

  /** No operation and no merge reorders characters shown before and after it. */
  lemma OrderKept(d: Doc, delta: Doc, ids: seq<TextId>, chains: seq<Chain>, ids': seq<TextId>, chains': seq<Chain>,
                  i: nat, j: nat, i': nat, j': nat)
    requires Lists(d, ids, chains) && Lists(Union(d, delta), ids', chains')
    requires i < |ids| && j < |ids| && i' < |ids'| && j' < |ids'| && ids[i] == ids'[i'] && ids[j] == ids'[j']
    ensures i < j <==> i' < j'
  {
    assert !Conflicting(d, Union(d, delta));
    OrderStable(d, ids, chains, Union(d, delta), ids', chains', i, j, i', j');
  }
}
