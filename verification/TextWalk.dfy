/** Reading a text: the recursive walk over siblings, newest first. */
module TextWalks {
  import opened Base
  import opened Stamps
  import opened Texts
  import opened TextOrders
  import TextReplicas

  type Siblings = map<Option<TextId>, seq<TextId>>

  predicate Descending(s: seq<TextId>) {
    forall i, j :: 0 <= i < j < |s| ==> IdLess(s[j], s[i])
  }

  /** Every character is filed under its anchor, newest first. */
  ghost predicate Filed(d: Doc, done: set<TextId>, children: Siblings) {
    && (forall a :: a in children ==> Descending(children[a]))
    && (forall a, id :: a in children && id in children[a] ==> id in done && Holds(d, id) && AnchorOf(d, id) == a)
    && forall id :: id in done && Holds(d, id) ==> AnchorOf(d, id) in children && id in children[AnchorOf(d, id)]
  }

  lemma PushKeeps(s: seq<TextId>, id: TextId)
    requires Descending(s) && forall x :: x in s ==> IdLess(x, id)
    ensures Descending([id] + s)
  {
    forall i, j | 0 <= i < j <= |s| ensures IdLess(([id] + s)[j], ([id] + s)[i]) {
      assert ([id] + s)[j] == s[j - 1];
      assert s[j - 1] in s;
    }
  }

  function FileUnder(children: Siblings, after: Option<TextId>, id: TextId): Siblings {
    children[after := [id] + if after in children then children[after] else []]
  }

  lemma FileStep(d: Doc, done: set<TextId>, children: Siblings, id: TextId)
    requires Filed(d, done, children) && Holds(d, id) && forall x :: x in done ==> IdLess(x, id)
    ensures Filed(d, done + {id}, FileUnder(children, AnchorOf(d, id), id))
  {
    var after := AnchorOf(d, id);
    var children' := FileUnder(children, after, id);
    if after in children {
      assert forall x :: x in children[after] ==> x in done;
      PushKeeps(children[after], id);
    }
    forall a, x | a in children' && x in children'[a] ensures x in done + {id} && Holds(d, x) && AnchorOf(d, x) == a {
      assert a == after && x != id ==> a in children && x in children[a];
    }
  }

  method Children(d: Doc) returns (children: Siblings)
    ensures Filed(d, d.Keys, children)
  {
    children := map[];
    var rest := d.Keys;
    while rest != {}
      invariant rest <= d.Keys
      invariant forall x, y :: x in d && x !in rest && y in rest ==> IdLess(x, y)
      invariant Filed(d, d.Keys - rest, children)
      decreases rest
    {
      TextReplicas.LeastExists(rest);
      var id :| id in rest && forall j :: j in rest ==> !IdLess(j, id);
      if d[id].content.Some? {
        FileStep(d, d.Keys - rest, children, id);
        children := FileUnder(children, d[id].content.value.after, id);
      }
      assert d.Keys - (rest - {id}) == d.Keys - rest + {id};
      rest := rest - {id};
    }
    assert d.Keys - rest == d.Keys;
  }

  /** `c` continues `p` through one of the children `ids`. */
  predicate Under(p: Chain, c: Chain, ids: seq<TextId>) {
    Extends(p, c) && c[|p|] in ids
  }

  /** The shown chains below `p` through `ids`, in order. */
  ghost predicate Collected(d: Doc, p: Chain, ids: seq<TextId>, chains: seq<Chain>) {
    Sorted(chains) && forall c :: Member(d, p, ids, chains, c)
  }

  ghost predicate Member(d: Doc, p: Chain, ids: seq<TextId>, chains: seq<Chain>, c: Chain) {
    c in chains <==> IsChain(d, c) && Under(p, c, ids) && Shown(d, c[|c| - 1])
  }

  /** Everything below `p` through `ids` has been visited, and nothing else. */
  ghost predicate Visited(d: Doc, p: Chain, ids: seq<TextId>, before: set<TextId>, after: set<TextId>) {
    && before <= after
    && (forall c :: IsChain(d, c) && Under(p, c, ids) ==> c[|c| - 1] in after)
    && forall id :: id in after && id !in before ==> Found(d, p, ids, id)
  }

  /** Nothing below `p` has been visited. */
  ghost predicate Unvisited(d: Doc, p: Chain, visited: set<TextId>) {
    forall c :: IsChain(d, c) && Extends(p, c) ==> c[|c| - 1] !in visited
  }

  predicate Tips(ids: seq<TextId>, chains: seq<Chain>) {
    |ids| == |chains| && forall i :: 0 <= i < |ids| ==> Tip(chains[i]) == Some(ids[i])
  }

  function Kids(children: Siblings, p: Chain): seq<TextId> {
    if Tip(p) in children then children[Tip(p)] else []
  }

  lemma KidChain(d: Doc, children: Siblings, p: Chain, k: nat)
    requires Filed(d, d.Keys, children) && IsChain(d, p) && k < |Kids(children, p)|
    ensures IsChain(d, p + [Kids(children, p)[k]])
    ensures Kids(children, p)[k] !in Kids(children, p)[..k]
    ensures Descending(Kids(children, p)[..k] + [Kids(children, p)[k]])
  {
    ChainExtend(d, p, Kids(children, p)[k]);
    assert Kids(children, p)[..k] + [Kids(children, p)[k]] == Kids(children, p)[..k + 1];
  }

  lemma ExtendsUnder(d: Doc, children: Siblings, p: Chain, c: Chain)
    requires Filed(d, d.Keys, children) && IsChain(d, c) && Extends(p, c)
    ensures Under(p, c, Kids(children, p))
  {
    assert Holds(d, c[|p|]) && AnchorOf(d, c[|p|]) == Tip(c[..|p|]);
  }

  /** A child not reached through its elder siblings has not been visited, nor has anything below it. */
  lemma StillUnvisited(d: Doc, p: Chain, ids: seq<TextId>, id: TextId, before: set<TextId>, visited: set<TextId>)
    requires IsChain(d, p + [id]) && id !in ids
    requires Unvisited(d, p, before) && Visited(d, p, ids, before, visited)
    ensures id !in visited && Unvisited(d, p + [id], visited + {id})
  {
    var q := p + [id];
    forall c | IsChain(d, c) && (c == q || Extends(q, c)) ensures c[|c| - 1] !in visited {
      assert c[..|p|] == p by {
        assert c[..|q|] == q;
        assert c[..|p|] == q[..|p|];
      }
      assert Extends(p, c) && c[|p|] == q[|p|] == id;
      if c[|c| - 1] in visited {
        var e :| IsChain(d, e) && Under(p, e, ids) && e[|e| - 1] == c[|c| - 1];
        OneChain(d, c, e);
        assert false;
      }
    }
    forall c | IsChain(d, c) && Extends(q, c) ensures c[|c| - 1] != id {
      if c[|c| - 1] == id {
        OneChain(d, c, q);
      }
    }
  }

  lemma UnderNext(p: Chain, c: Chain, ids: seq<TextId>, id: TextId)
    ensures Under(p, c, ids + [id]) <==> Under(p, c, ids) || c == p + [id] || Extends(p + [id], c)
  {
    var q := p + [id];
    if Under(p, c, ids + [id]) && !Under(p, c, ids) {
      assert c[..|q|] == q;
    }
    if c == q || Extends(q, c) {
      assert c[..|q|] == q && c[|p|] == q[|p|] && c[..|p|] == q[..|p|];
    }
  }

  ghost predicate Found(d: Doc, p: Chain, ids: seq<TextId>, x: TextId) {
    exists c :: IsChain(d, c) && Under(p, c, ids) && c[|c| - 1] == x
  }

  lemma FoundNext(d: Doc, p: Chain, ids: seq<TextId>, id: TextId, kids: seq<TextId>, x: TextId)
    requires IsChain(d, p + [id])
    requires Found(d, p, ids, x) || x == id || Found(d, p + [id], kids, x)
    ensures Found(d, p, ids + [id], x)
  {
    var c: Chain;
    if Found(d, p, ids, x) {
      c :| IsChain(d, c) && Under(p, c, ids) && c[|c| - 1] == x;
    } else if x == id {
      c := p + [id];
    } else {
      c :| IsChain(d, c) && Under(p + [id], c, kids) && c[|c| - 1] == x;
    }
    UnderNext(p, c, ids, id);
  }

  lemma VisitedNext(d: Doc, p: Chain, ids: seq<TextId>, id: TextId, kids: seq<TextId>,
                    before: set<TextId>, visited: set<TextId>, after: set<TextId>)
    requires IsChain(d, p + [id]) && Visited(d, p, ids, before, visited)
    requires Visited(d, p + [id], kids, visited + {id}, after)
    requires forall c :: IsChain(d, c) && Extends(p + [id], c) ==> Under(p + [id], c, kids)
    ensures Visited(d, p, ids + [id], before, after)
  {
    forall c | IsChain(d, c) && Under(p, c, ids + [id]) ensures c[|c| - 1] in after {
      UnderNext(p, c, ids, id);
    }
    forall x | x in after && x !in before ensures Found(d, p, ids + [id], x) {
      FoundNext(d, p, ids, id, kids, x);
    }
  }

  lemma ElderBefore(p: Chain, ids: seq<TextId>, id: TextId, c: Chain, e: Chain)
    requires Descending(ids + [id]) && Under(p, c, ids) && (e == p + [id] || Extends(p + [id], e))
    ensures Before(c, e)
  {
    UnderNext(p, e, ids, id);
    var k :| 0 <= k < |ids| && ids[k] == c[|p|];
    assert IdLess((ids + [id])[|ids|], (ids + [id])[k]);
    assert e[|p|] == id by {
      assert e[..|p| + 1] == p + [id];
      assert e[..|p| + 1][|p|] == id;
    }
    BeforeCommon(p, c[|p|..], e[|p|..]);
    assert c == p + c[|p|..] && e == p + e[|p|..];
  }

  /** The chains of a child: its own, if shown, and those below it. */
  function Branch(d: Doc, q: Chain, below: seq<Chain>): seq<Chain>
    requires q != []
  {
    if Shown(d, q[|q| - 1]) then [q] + below else below
  }

  lemma BranchSorted(d: Doc, q: Chain, kids: seq<TextId>, below: seq<Chain>)
    requires q != [] && Collected(d, q, kids, below)
    ensures Sorted(Branch(d, q, below))
  {
    forall c, e | c in [q] && e in below ensures Before(c, e) {
      assert c == q && Member(d, q, kids, below, e);
      ParentBefore(q, e);
    }
    SortedConcat([q], below);
  }

  lemma MemberNext(d: Doc, p: Chain, ids: seq<TextId>, id: TextId, kids: seq<TextId>, chains: seq<Chain>, below: seq<Chain>, c: Chain)
    requires IsChain(d, p + [id])
    requires Member(d, p, ids, chains, c) && Member(d, p + [id], kids, below, c)
    requires IsChain(d, c) && Extends(p + [id], c) ==> Under(p + [id], c, kids)
    ensures Member(d, p, ids + [id], chains + Branch(d, p + [id], below), c)
  {
    UnderNext(p, c, ids, id);
    var branch := Branch(d, p + [id], below);
    assert c in branch <==> c in below || (c == p + [id] && Shown(d, id));
    assert c in chains + branch <==> c in chains || c in branch;
  }

  lemma CollectedNext(d: Doc, p: Chain, ids: seq<TextId>, id: TextId, kids: seq<TextId>, chains: seq<Chain>, below: seq<Chain>)
    requires Descending(ids + [id]) && IsChain(d, p + [id])
    requires Collected(d, p, ids, chains) && Collected(d, p + [id], kids, below)
    requires forall c :: IsChain(d, c) && Extends(p + [id], c) ==> Under(p + [id], c, kids)
    ensures Collected(d, p, ids + [id], chains + Branch(d, p + [id], below))
  {
    var branch := Branch(d, p + [id], below);
    BranchSorted(d, p + [id], kids, below);
    forall c, e | c in chains && e in branch ensures Before(c, e) {
      assert Member(d, p, ids, chains, c) && Member(d, p + [id], kids, below, e);
      ElderBefore(p, ids, id, c, e);
    }
    SortedConcat(chains, branch);
    forall c ensures Member(d, p, ids + [id], chains + branch, c) {
      assert Member(d, p, ids, chains, c) && Member(d, p + [id], kids, below, c);
      MemberNext(d, p, ids, id, kids, chains, below, c);
    }
  }

  lemma TipsConcat(ids: seq<TextId>, chains: seq<Chain>, ids': seq<TextId>, chains': seq<Chain>)
    requires Tips(ids, chains) && Tips(ids', chains')
    ensures Tips(ids + ids', chains + chains')
  {
  }

  /** What a walk has done after visiting everything below `p` through `ids`. */
  ghost predicate Walked(d: Doc, p: Chain, ids: seq<TextId>, before: set<TextId>, visited: set<TextId>,
                         shown: seq<TextId>, chains: seq<Chain>) {
    && visited <= d.Keys && Visited(d, p, ids, before, visited)
    && Tips(shown, chains) && Collected(d, p, ids, chains)
  }

  lemma WalkedNone(d: Doc, p: Chain, before: set<TextId>)
    requires before <= d.Keys
    ensures Walked(d, p, [], before, before, [], [])
  {
  }

  /** The child comes after its elder siblings; neither it nor anything below it has been visited. */
  ghost predicate Ready(d: Doc, p: Chain, elder: seq<TextId>, id: TextId, visited: set<TextId>) {
    && IsChain(d, p + [id]) && id !in elder && Descending(elder + [id])
    && id !in visited && Unvisited(d, p + [id], visited + {id})
  }

  lemma NextReady(d: Doc, children: Siblings, p: Chain, k: nat, before: set<TextId>, visited: set<TextId>)
    requires Filed(d, d.Keys, children) && IsChain(d, p) && k < |Kids(children, p)|
    requires Unvisited(d, p, before) && Visited(d, p, Kids(children, p)[..k], before, visited)
    ensures Ready(d, p, Kids(children, p)[..k], Kids(children, p)[k], visited)
  {
    KidChain(d, children, p, k);
    StillUnvisited(d, p, Kids(children, p)[..k], Kids(children, p)[k], before, visited);
  }

  /** Visits a child and everything below it. */
  method Visit(d: Doc, children: Siblings, id: TextId, ghost p: Chain, ghost elder: seq<TextId>, ghost before: set<TextId>,
               visited: set<TextId>, ids: seq<TextId>, ghost chains: seq<Chain>)
    returns (visited': set<TextId>, ids': seq<TextId>, ghost chains': seq<Chain>)
    requires Filed(d, d.Keys, children) && Ready(d, p, elder, id, visited) && Walked(d, p, elder, before, visited, ids, chains)
    ensures Walked(d, p, elder + [id], before, visited', ids', chains')
    decreases d.Keys - visited, 0
  {
    ghost var kids, below := Kids(children, p + [id]), [];
    var more;
    visited', more, below := Walk(d, children, Some(id), p + [id], visited + {id});
    forall c | IsChain(d, c) && Extends(p + [id], c) ensures Under(p + [id], c, kids) {
      ExtendsUnder(d, children, p + [id], c);
    }
    VisitedNext(d, p, elder, id, kids, before, visited, visited');
    CollectedNext(d, p, elder, id, kids, chains, below);
    if Shown(d, id) {
      TipsConcat([id], [p + [id]], more, below);
      more := [id] + more;
    }
    TipsConcat(ids, chains, more, Branch(d, p + [id], below));
    ids', chains' := ids + more, chains + Branch(d, p + [id], below);
  }

  /** Visits the next child unless it has been visited. */
  method Next(d: Doc, children: Siblings, siblings: seq<TextId>, k: nat, ghost p: Chain, ghost before: set<TextId>,
              visited: set<TextId>, ids: seq<TextId>, ghost chains: seq<Chain>)
    returns (visited': set<TextId>, ids': seq<TextId>, ghost chains': seq<Chain>)
    requires Filed(d, d.Keys, children) && IsChain(d, p) && siblings == Kids(children, p) && k < |siblings|
    requires Unvisited(d, p, before) && Walked(d, p, siblings[..k], before, visited, ids, chains)
    ensures Walked(d, p, siblings[..k] + [siblings[k]], before, visited', ids', chains')
    decreases d.Keys - visited, 1
  {
    var id := siblings[k];
    assert Ready(d, p, siblings[..k], id, visited) by {
      NextReady(d, children, p, k, before, visited);
    }
    if id in visited {
      visited', ids', chains' := visited, ids, chains;
    } else {
      visited', ids', chains' := Visit(d, children, id, p, siblings[..k], before, visited, ids, chains);
    }
  }

  lemma TakeNext(s: seq<TextId>, k: nat)
    requires k < |s|
    ensures s[..k] + [s[k]] == s[..k + 1]
  {
  }

  lemma TakeAll(s: seq<TextId>)
    ensures s[..|s|] == s
  {
  }

  /** Visits everything below `after`, whose chain is `p`, and lists what is shown of it. */
  method Walk(d: Doc, children: Siblings, after: Option<TextId>, ghost p: Chain, visited: set<TextId>)
    returns (visited': set<TextId>, ids: seq<TextId>, ghost chains: seq<Chain>)
    requires Filed(d, d.Keys, children) && IsChain(d, p) && Tip(p) == after
    requires visited <= d.Keys && Unvisited(d, p, visited)
    ensures Walked(d, p, Kids(children, p), visited, visited', ids, chains)
    decreases d.Keys - visited, 2
  {
    visited', ids, chains := visited, [], [];
    var siblings := if after in children then children[after] else [];
    WalkedNone(d, p, visited);
    for k := 0 to |siblings|
      invariant Walked(d, p, siblings[..k], visited, visited', ids, chains)
    {
      TakeNext(siblings, k);
      visited', ids, chains := Next(d, children, siblings, k, p, visited, visited', ids, chains);
    }
    TakeAll(siblings);
  }

  /** The identities of the characters a reader sees, in order. */
  method VisibleIds(d: Doc) returns (ids: seq<TextId>, ghost chains: seq<Chain>)
    ensures Lists(d, ids, chains)
  {
    var children := Children(d);
    var visited;
    visited, ids, chains := Walk(d, children, None, [], {});
    forall c ensures c in chains <==> IsChain(d, c) && c != [] && Shown(d, c[|c| - 1]) {
      assert Member(d, [], Kids(children, []), chains, c);
      if IsChain(d, c) && c != [] {
        ExtendsUnder(d, children, [], c);
      }
    }
  }
}
