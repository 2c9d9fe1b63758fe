/** What an insert does to the text a reader sees. */
module TextSplices {
  import opened Base
  import opened Stamps
  import opened Texts
  import opened TextOrders
  import TextWalks

  predicate Spells(d: Doc, ids: seq<TextId>, s: string) {
    |s| == |ids| && forall i :: 0 <= i < |s| ==> Holds(d, ids[i]) && s[i] == d[ids[i]].content.value.character
  }

  lemma ListedHeld(d: Doc, ids: seq<TextId>, chains: seq<Chain>)
    requires Lists(d, ids, chains)
    ensures forall i :: 0 <= i < |ids| ==> Holds(d, ids[i])
  {
    forall i | 0 <= i < |ids| ensures Holds(d, ids[i]) {
      assert chains[i] in chains && Tip(chains[i]) == Some(ids[i]);
    }
  }

  method Spell(d: Doc, ids: seq<TextId>) returns (s: string)
    requires forall i :: 0 <= i < |ids| ==> Holds(d, ids[i])
    ensures Spells(d, ids, s)
  {
    s := "";
    for i := 0 to |ids|
      invariant Spells(d, ids[..i], s)
    {
      s := s + [d[ids[i]].content.value.character];
    }
    assert ids[..|ids|] == ids;
  }

  /** The text a reader sees. */
  method ReadString(d: Doc) returns (s: string, ghost ids: seq<TextId>, ghost chains: seq<Chain>)
    ensures Lists(d, ids, chains) && Spells(d, ids, s)
  {
    var visible;
    visible, chains := TextWalks.VisibleIds(d);
    ListedHeld(d, visible, chains);
    s := Spell(d, visible);
    ids := visible;
  }

  // ---- the new characters -------------------------------------------------------------

  /** The stamp is later than that of every character and every anchor. */
  ghost predicate Newest(d: Doc, stamp: Stamp) {
    forall id :: id in d ==>
      && Less(id.stamp, stamp)
      && (Holds(d, id) && AnchorOf(d, id).Some? ==> Less(AnchorOf(d, id).value.stamp, stamp))
  }

  /** What holds of a state after an insert whose stamp is the newest. */
  ghost predicate Grown(d: Doc, d': Doc, after: Option<TextId>, text: string, stamp: Stamp) {
    && Newest(d, stamp)
    && (forall id :: id in d ==> id in d' && d'[id] == d[id])
    && (forall id :: id in d' && id !in d ==> id.stamp == stamp && id.offset < |text|)
    && forall id: TextId :: id.stamp == stamp && id.offset < |text| ==>
         id in d' && d'[id] == Entry(Some(Content(Anchor(after, stamp, id.offset), text[id.offset])), None, map[])
  }

  lemma InsertGrows(d: Doc, after: Option<TextId>, text: string, stamp: Stamp)
    requires Newest(d, stamp)
    ensures Grown(d, Union(d, Delta(Insert(after, text), stamp)), after, text, stamp)
  {
  }

  function NewIds(stamp: Stamp, n: nat): (s: seq<TextId>)
    ensures |s| == n && forall i :: 0 <= i < n ==> s[i] == TextId(stamp, i)
  {
    seq(n, i requires 0 <= i => TextId(stamp, i))
  }

  function NewChain(p: Chain, stamp: Stamp, n: nat): Chain {
    p + NewIds(stamp, n)
  }

  function NewChains(p: Chain, stamp: Stamp, n: nat): (s: seq<Chain>)
    ensures |s| == n && forall i :: 0 <= i < n ==> s[i] == NewChain(p, stamp, i + 1)
  {
    seq(n, i requires 0 <= i => NewChain(p, stamp, i + 1))
  }

  // ---- which chains the insert creates --------------------------------------------

  lemma OldChain(d: Doc, d': Doc, after: Option<TextId>, text: string, stamp: Stamp, c: Chain)
    requires Grown(d, d', after, text, stamp) && IsChain(d, c)
    ensures IsChain(d', c)
  {
  }

  lemma NextChain(p: Chain, stamp: Stamp, n: nat)
    ensures NewChain(p, stamp, n + 1) == NewChain(p, stamp, n) + [TextId(stamp, n)]
    ensures NewChain(p, stamp, 0) == p
    ensures n > 0 ==> Tip(NewChain(p, stamp, n)) == Some(TextId(stamp, n - 1))
  {
  }

  lemma {:induction false} NewIsChain(d: Doc, d': Doc, after: Option<TextId>, text: string, stamp: Stamp, p: Chain, n: nat)
    requires Grown(d, d', after, text, stamp) && IsChain(d, p) && Tip(p) == after && n <= |text|
    ensures IsChain(d', NewChain(p, stamp, n))
  {
    if n == 0 {
      OldChain(d, d', after, text, stamp, p);
      NextChain(p, stamp, 0);
    } else {
      NewIsChain(d, d', after, text, stamp, p, n - 1);
      NextChain(p, stamp, n - 1);
      ChainExtend(d', NewChain(p, stamp, n - 1), TextId(stamp, n - 1));
    }
  }

  /** Every chain after the insert is an old one or one of those the insert creates. */
  lemma {:induction false} Classify(d: Doc, d': Doc, after: Option<TextId>, text: string, stamp: Stamp, p: Chain, c: Chain)
    returns (n: nat)
    requires Grown(d, d', after, text, stamp) && IsChain(d, p) && Tip(p) == after && IsChain(d', c)
    ensures IsChain(d, c) || (1 <= n <= |text| && c == NewChain(p, stamp, n))
    decreases |c|
  {
    n := 0;
    if c != [] {
      var id, c0 := c[|c| - 1], c[..|c| - 1];
      assert c == c0 + [id];
      ChainPrefix(d', c, |c| - 1);
      var m := Classify(d, d', after, text, stamp, p, c0);
      n := ClassifyNext(d, d', after, text, stamp, p, c0, id, m);
    }
  }

  lemma OldTip(d: Doc, stamp: Stamp, c: Chain)
    requires Newest(d, stamp) && IsChain(d, c)
    ensures c != [] ==> Less(c[|c| - 1].stamp, stamp)
  {
  }

  lemma ClassifyNext(d: Doc, d': Doc, after: Option<TextId>, text: string, stamp: Stamp, p: Chain, c: Chain, id: TextId, m: nat)
    returns (n: nat)
    requires Grown(d, d', after, text, stamp) && IsChain(d, p) && Tip(p) == after
    requires Holds(d', id) && AnchorOf(d', id) == Tip(c)
    requires IsChain(d, c) || (1 <= m && c == NewChain(p, stamp, m))
    ensures IsChain(d, c + [id]) || (1 <= n <= |text| && c + [id] == NewChain(p, stamp, n))
  {
    OldTip(d, stamp, p);
    if id in d {
      n := 0;
      assert d'[id] == d[id];
      NextChain(p, stamp, m);
      assert IsChain(d, c);
      ChainExtend(d, c, id);
    } else {
      assert id == TextId(stamp, id.offset) && AnchorOf(d', id) == Anchor(after, stamp, id.offset);
      n := NewNext(d, after, stamp, p, c, id.offset, m);
    }
  }

  lemma NewNext(d: Doc, after: Option<TextId>, stamp: Stamp, p: Chain, c: Chain, offset: nat, m: nat) returns (n: nat)
    requires Newest(d, stamp) && IsChain(d, p) && Tip(p) == after && Anchor(after, stamp, offset) == Tip(c)
    requires IsChain(d, c) || (1 <= m && c == NewChain(p, stamp, m))
    ensures n == offset + 1 && c + [TextId(stamp, offset)] == NewChain(p, stamp, n)
  {
    n := offset + 1;
    OldTip(d, stamp, p);
    NextChain(p, stamp, offset);
    if IsChain(d, c) {
      OldTip(d, stamp, c);
      OneChain(d, c, p);
    } else {
      NextChain(p, stamp, m);
    }
  }

  // ---- where they go ------------------------------------------------------------------

  lemma {:induction false} NewBefore(p: Chain, x: Chain, e: Chain)
    requires Before(p, e) && x != [] && (Extends(p, e) ==> IdLess(e[|p|], x[0]))
    ensures Before(p + x, e)
  {
    if p == [] {
      assert p + x == x;
    } else if p[0] == e[0] {
      assert Extends(p[1..], e[1..]) ==> Extends(p, e) by {
        if Extends(p[1..], e[1..]) {
          assert e[..|p|] == [e[0]] + e[1..][..|p| - 1];
        }
      }
      NewBefore(p[1..], x, e[1..]);
      assert (p + x)[1..] == p[1..] + x;
    }
  }

  lemma NewSorted(p: Chain, stamp: Stamp, n: nat)
    ensures Sorted(NewChains(p, stamp, n))
  {
    var s := NewChains(p, stamp, n);
    forall i, j | 0 <= i < j < n ensures Before(s[i], s[j]) {
      assert s[j][..|p| + i + 1] == s[i];
      ParentBefore(s[i], s[j]);
    }
  }

  /** The chain of the place after the first `k` characters shown. */
  function Place(chains: seq<Chain>, k: nat): Chain
    requires k <= |chains|
  {
    if k == 0 then [] else chains[k - 1]
  }

  function Spliced<T>(s: seq<T>, k: nat, t: seq<T>): seq<T>
    requires k <= |s|
  {
    s[..k] + t + s[k..]
  }

  ghost predicate OldChains(d: Doc, chains: seq<Chain>) {
    Sorted(chains) && forall i :: 0 <= i < |chains| ==> IsChain(d, chains[i]) && chains[i] != []
  }

  lemma BeforeNew(d: Doc, chains: seq<Chain>, k: nat, stamp: Stamp, n: nat, i: nat)
    requires OldChains(d, chains) && i < k <= |chains|
    ensures Before(chains[i], NewChain(Place(chains, k), stamp, n + 1))
  {
    var p := Place(chains, k);
    assert NewChain(p, stamp, n + 1)[..|p|] == p;
    ParentBefore(p, NewChain(p, stamp, n + 1));
    if i < k - 1 {
      BeforeTransitive(chains[i], p, NewChain(p, stamp, n + 1));
    }
  }

  lemma AfterNew(d: Doc, chains: seq<Chain>, k: nat, stamp: Stamp, n: nat, j: nat)
    requires OldChains(d, chains) && Newest(d, stamp) && k <= j < |chains|
    ensures Before(NewChain(Place(chains, k), stamp, n + 1), chains[j])
  {
    var p := Place(chains, k);
    assert Before(p, chains[j]);
    NewBefore(p, NewIds(stamp, n + 1), chains[j]);
  }

  lemma SplicedSorted(d: Doc, chains: seq<Chain>, k: nat, stamp: Stamp, n: nat)
    requires OldChains(d, chains) && Newest(d, stamp) && k <= |chains|
    ensures Sorted(Spliced(chains, k, NewChains(Place(chains, k), stamp, n)))
  {
    var news := NewChains(Place(chains, k), stamp, n);
    NewSorted(Place(chains, k), stamp, n);
    forall c, e | c in chains[..k] && e in news ensures Before(c, e) {
      var i :| 0 <= i < k && chains[..k][i] == c;
      var j :| 0 <= j < n && news[j] == e;
      BeforeNew(d, chains, k, stamp, j, i);
    }
    SortedConcat(chains[..k], news);
    forall c, e | c in chains[..k] + news && e in chains[k..] ensures Before(c, e) {
      var j :| 0 <= j < |chains| - k && chains[k..][j] == e;
      assert e == chains[k + j];
      if c in news {
        var i :| 0 <= i < n && news[i] == c;
        AfterNew(d, chains, k, stamp, i, k + j);
      } else {
        var i :| 0 <= i < k && chains[..k][i] == c;
        assert c == chains[i];
      }
    }
    SortedConcat(chains[..k] + news, chains[k..]);
  }

  lemma SplicedIn<T>(s: seq<T>, k: nat, t: seq<T>, x: T)
    requires k <= |s|
    ensures x in Spliced(s, k, t) <==> x in s || x in t
  {
    assert s == s[..k] + s[k..];
    assert x in s <==> x in s[..k] || x in s[k..];
  }

  ghost predicate Visible(d: Doc, c: Chain) {
    IsChain(d, c) && c != [] && Shown(d, c[|c| - 1])
  }

  lemma OldVisible(d: Doc, d': Doc, after: Option<TextId>, text: string, stamp: Stamp, c: Chain)
    requires Grown(d, d', after, text, stamp) && IsChain(d, c)
    ensures Visible(d, c) <==> Visible(d', c)
  {
    OldChain(d, d', after, text, stamp, c);
  }

  lemma NewVisible(d: Doc, d': Doc, after: Option<TextId>, text: string, stamp: Stamp, p: Chain, n: nat)
    requires Grown(d, d', after, text, stamp) && IsChain(d, p) && Tip(p) == after && 1 <= n <= |text|
    ensures Visible(d', NewChain(p, stamp, n))
  {
    NewIsChain(d, d', after, text, stamp, p, n);
    NextChain(p, stamp, n);
    assert Shown(d', TextId(stamp, n - 1));
  }

  /** A chain is shown after the insert exactly when it was shown before or is one of the new ones. */
  lemma ShownAfter(d: Doc, d': Doc, after: Option<TextId>, text: string, stamp: Stamp, p: Chain, c: Chain)
    requires Grown(d, d', after, text, stamp) && IsChain(d, p) && Tip(p) == after
    ensures Visible(d', c) <==> Visible(d, c) || c in NewChains(p, stamp, |text|)
  {
    var news := NewChains(p, stamp, |text|);
    if IsChain(d, c) {
      OldVisible(d, d', after, text, stamp, c);
    } else if Visible(d', c) {
      var n := Classify(d, d', after, text, stamp, p, c);
      assert news[n - 1] == c;
    }
    if c in news {
      var i :| 0 <= i < |text| && news[i] == c;
      NewVisible(d, d', after, text, stamp, p, i + 1);
    }
  }

  lemma SplicedTips(ids: seq<TextId>, chains: seq<Chain>, k: nat, stamp: Stamp, n: nat)
    requires |ids| == |chains| && k <= |ids| && forall i :: 0 <= i < |ids| ==> Tip(chains[i]) == Some(ids[i])
    ensures var ids', chains' := Spliced(ids, k, NewIds(stamp, n)), Spliced(chains, k, NewChains(Place(chains, k), stamp, n));
            |ids'| == |chains'| && forall i :: 0 <= i < |ids'| ==> Tip(chains'[i]) == Some(ids'[i])
  {
    var p := Place(chains, k);
    forall i | 0 <= i < n ensures Tip(NewChains(p, stamp, n)[i]) == Some(NewIds(stamp, n)[i]) {
      NextChain(p, stamp, i + 1);
    }
  }

  /**
   Inserting after the first `k` characters, with a stamp later than any in the text, puts the new
   characters there and leaves everything else as it was.
   */
  lemma Splice(d: Doc, d': Doc, ids: seq<TextId>, chains: seq<Chain>, k: nat, text: string, stamp: Stamp)
    requires Lists(d, ids, chains) && k <= |ids|
    requires Grown(d, d', if k == 0 then None else Some(ids[k - 1]), text, stamp)
    ensures Lists(d', Spliced(ids, k, NewIds(stamp, |text|)), Spliced(chains, k, NewChains(Place(chains, k), stamp, |text|)))
  {
    var after, p := if k == 0 then None else Some(ids[k - 1]), Place(chains, k);
    var news := NewChains(p, stamp, |text|);
    assert forall i :: 0 <= i < |chains| ==> chains[i] in chains;
    SplicedSorted(d, chains, k, stamp, |text|);
    SplicedTips(ids, chains, k, stamp, |text|);
    forall c ensures c in Spliced(chains, k, news) <==> IsChain(d', c) && c != [] && Shown(d', c[|c| - 1]) {
      SplicedIn(chains, k, news, c);
      ShownAfter(d, d', after, text, stamp, p, c);
    }
  }

  /** The text read after such an insert is the old one with the new string spliced in. */
  lemma SpliceString(d: Doc, ids: seq<TextId>, chains: seq<Chain>, s: string, k: nat, text: string, stamp: Stamp,
                     ids': seq<TextId>, chains': seq<Chain>, s': string)
    requires Lists(d, ids, chains) && Spells(d, ids, s) && k <= |s| && Newest(d, stamp)
    requires var d' := Union(d, Delta(Insert(if k == 0 then None else Some(ids[k - 1]), text), stamp));
             Lists(d', ids', chains') && Spells(d', ids', s')
    ensures s' == s[..k] + text + s[k..]
  {
    var after := if k == 0 then None else Some(ids[k - 1]);
    var d' := Union(d, Delta(Insert(after, text), stamp));
    InsertGrows(d, after, text, stamp);
    Splice(d, d', ids, chains, k, text, stamp);
    ListsUnique(d', ids', chains', Spliced(ids, k, NewIds(stamp, |text|)), Spliced(chains, k, NewChains(Place(chains, k), stamp, |text|)));
    SpelledSpliced(d, d', after, ids, s, k, text, stamp, s');
  }

  lemma SpelledSpliced(d: Doc, d': Doc, after: Option<TextId>, ids: seq<TextId>, s: string, k: nat, text: string, stamp: Stamp, s': string)
    requires Grown(d, d', after, text, stamp) && Spells(d, ids, s) && k <= |s|
    requires Spells(d', Spliced(ids, k, NewIds(stamp, |text|)), s')
    ensures s' == s[..k] + text + s[k..]
  {
    var ids', t := Spliced(ids, k, NewIds(stamp, |text|)), s[..k] + text + s[k..];
    forall i | 0 <= i < |s'| ensures s'[i] == t[i] {
      if i < k {
        assert ids'[i] == ids[i] && d'[ids[i]] == d[ids[i]];
      } else if i < k + |text| {
        assert ids'[i] == TextId(stamp, i - k);
      } else {
        assert ids'[i] == ids[i - |text|] && d'[ids[i - |text|]] == d[ids[i - |text|]];
      }
    }
  }
}
