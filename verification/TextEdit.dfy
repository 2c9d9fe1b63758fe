/** Editing a text at the places a reader sees: what is accepted, and what is read afterwards. */
module TextEdits {
  import opened Base
  import opened Stamps
  import opened Texts
  import opened TextOrders
  import opened TextSplices
  import opened TextConvergence
  import TextWalks
  import R = TextReplicas

  // ---- what every state looks like ---------------------------------------------------------------

  /** A character hangs where its insert put it, its offset fits 32 bits, and no identity is the sentinel. */
  predicate Seated(id: TextId, after: Option<TextId>) {
    && id.offset < U32_MAX
    && if id.offset > 0 then after == Some(TextId(id.stamp, id.offset - 1))
       else after.None? || (after.value.stamp != ZERO && after.value.stamp != id.stamp)
  }

  predicate EntrySound(id: TextId, e: Entry) {
    && id.stamp != ZERO && (e.content.Some? ==> Seated(id, e.content.value.after))
    && (e.deletedAt.Some? ==> Less(id.stamp, e.deletedAt.value))
  }

  ghost predicate Sound(d: Doc) {
    forall id :: id in d ==> EntrySound(id, d[id])
  }

  lemma DeltaSound(op: Op, stamp: Stamp)
    requires Refusal(op, stamp).None?
    ensures Sound(Delta(op, stamp))
  {
  }

  lemma UnionSound(a: Doc, b: Doc)
    requires Sound(a) && Sound(b)
    ensures Sound(Union(a, b))
  {
  }

  /** Every replica's state is sound, whatever operations were sent to it: the malformed ones were refused. */
  lemma {:induction false} StateSound(h: History)
    ensures Sound(State(h))
  {
    match h
    case Fresh =>
    case Deliver(before, e) =>
      StateSound(before);
      if Refusal(e.op, e.stamp).None? {
        DeltaSound(e.op, e.stamp);
        UnionSound(State(before), D(e));
      }
    case Join(left, right) =>
      StateSound(left);
      StateSound(right);
      UnionSound(State(left), State(right));
  }

  // ---- what remains of a list ---------------------------------------------------------------------

  /** The elements at the places whose character is not gone. */
  function Remaining<T>(s: seq<T>, ids: seq<TextId>, gone: set<TextId>): seq<T>
    requires |s| == |ids|
  {
    if s == [] then []
    else
      var n := |s| - 1;
      Remaining(s[..n], ids[..n], gone) + if ids[n] in gone then [] else [s[n]]
  }

  lemma {:induction false} RemainingHas<T>(s: seq<T>, ids: seq<TextId>, gone: set<TextId>, x: T)
    requires |s| == |ids|
    ensures x in Remaining(s, ids, gone) <==> exists i :: 0 <= i < |s| && s[i] == x && ids[i] !in gone
  {
    if s != [] {
      var n := |s| - 1;
      RemainingHas(s[..n], ids[..n], gone, x);
      if i :| 0 <= i < n && s[i] == x && ids[i] !in gone {
        assert s[..n][i] == x && ids[..n][i] !in gone;
      }
      if i :| 0 <= i < n && s[..n][i] == x && ids[..n][i] !in gone {
        assert s[i] == x && ids[i] !in gone;
      }
    }
  }

  lemma {:induction false} RemainingSorted(chains: seq<Chain>, ids: seq<TextId>, gone: set<TextId>)
    requires |chains| == |ids| && Sorted(chains)
    ensures Sorted(Remaining(chains, ids, gone))
  {
    if chains != [] {
      var n := |chains| - 1;
      var front, last := Remaining(chains[..n], ids[..n], gone), if ids[n] in gone then [] else [chains[n]];
      RemainingSorted(chains[..n], ids[..n], gone);
      forall c, e | c in front && e in last ensures Before(c, e) {
        RemainingHas(chains[..n], ids[..n], gone, c);
        var i :| 0 <= i < n && chains[..n][i] == c;
        assert c == chains[i];
      }
      SortedConcat(front, last);
    }
  }

  lemma {:induction false} RemainingTips(chains: seq<Chain>, ids: seq<TextId>, gone: set<TextId>)
    requires |chains| == |ids| && forall i :: 0 <= i < |ids| ==> Tip(chains[i]) == Some(ids[i])
    ensures var c, t := Remaining(chains, ids, gone), Remaining(ids, ids, gone);
            |c| == |t| && forall i :: 0 <= i < |t| ==> Tip(c[i]) == Some(t[i])
  {
    if chains != [] {
      var n := |chains| - 1;
      RemainingTips(chains[..n], ids[..n], gone);
    }
  }

  lemma {:induction false} RemainingSpelled(d: Doc, d': Doc, ids: seq<TextId>, s: string, gone: set<TextId>)
    requires Spells(d, ids, s) && forall id :: Holds(d, id) ==> Holds(d', id) && d'[id].content == d[id].content
    ensures Spells(d', Remaining(ids, ids, gone), Remaining(s, ids, gone))
  {
    if s != [] {
      var n := |s| - 1;
      RemainingSpelled(d, d', ids[..n], s[..n], gone);
    }
  }

  /** Nothing is gone, everything is, or a stretch in the middle. */
  lemma {:induction false} RemainingNone<T>(s: seq<T>, ids: seq<TextId>, gone: set<TextId>)
    requires |s| == |ids| && forall i :: 0 <= i < |ids| ==> ids[i] !in gone
    ensures Remaining(s, ids, gone) == s
  {
    if s != [] {
      var n := |s| - 1;
      RemainingNone(s[..n], ids[..n], gone);
      assert s == s[..n] + [s[n]];
    }
  }

  lemma {:induction false} RemainingRange<T>(s: seq<T>, ids: seq<TextId>, gone: set<TextId>, from: nat, to: nat)
    requires |s| == |ids| && from <= to <= |ids| && forall i :: 0 <= i < |ids| ==> (ids[i] in gone <==> from <= i < to)
    ensures Remaining(s, ids, gone) == s[..from] + s[to..]
  {
    var n := |s| - 1;
    if to == from {
      RemainingNone(s, ids, gone);
      assert s[..from] + s[to..] == s;
    } else if to <= n {
      RemainingRange(s[..n], ids[..n], gone, from, to);
      assert s[..n][..from] + s[..n][to..] + [s[n]] == s[..from] + s[to..];
    } else {
      RemainingRange(s[..n], ids[..n], gone, from, n);
      assert s[..n][..from] + s[..n][n..] == s[..from] + s[to..];
    }
  }

  // ---- deleting ------------------------------------------------------------------------------------

  /** The characters a delete takes away: those it names that are older than it. */
  function Taken(gone: seq<TextId>, stamp: Stamp): set<TextId> {
    set id | id in gone && Less(id.stamp, stamp)
  }

  lemma SameChains(d: Doc, d': Doc, c: Chain)
    requires forall id :: (Holds(d, id) <==> Holds(d', id)) && (Holds(d, id) ==> d'[id].content == d[id].content)
    ensures IsChain(d, c) <==> IsChain(d', c)
  {
  }

  lemma DeletedAt(d: Doc, gone: seq<TextId>, stamp: Stamp, id: TextId)
    ensures var d' := Union(d, Delta(Delete(gone), stamp));
            && (Holds(d, id) <==> Holds(d', id)) && (Holds(d, id) ==> d'[id].content == d[id].content)
            && (Holds(d, id) && id !in Taken(gone, stamp) ==> d'[id].deletedAt == d[id].deletedAt)
            && (id in Taken(gone, stamp) ==> d'[id].deletedAt.Some? && Less(id.stamp, d'[id].deletedAt.value))
  {
  }

  /** A delete takes exactly the older ones of the characters it names off the list and moves no other. */
  lemma Deleted(d: Doc, ids: seq<TextId>, chains: seq<Chain>, gone: seq<TextId>, stamp: Stamp)
    requires Lists(d, ids, chains)
    ensures Lists(Union(d, Delta(Delete(gone), stamp)), Remaining(ids, ids, Taken(gone, stamp)), Remaining(chains, ids, Taken(gone, stamp)))
  {
    var d', taken := Union(d, Delta(Delete(gone), stamp)), Taken(gone, stamp);
    RemainingSorted(chains, ids, taken);
    RemainingTips(chains, ids, taken);
    forall id ensures (Holds(d, id) <==> Holds(d', id)) && (Holds(d, id) ==> d'[id].content == d[id].content) {
      DeletedAt(d, gone, stamp, id);
    }
    forall c ensures c in Remaining(chains, ids, taken) <==> IsChain(d', c) && c != [] && Shown(d', c[|c| - 1]) {
      RemainingHas(chains, ids, taken, c);
      SameChains(d, d', c);
      DeletedChain(d, ids, chains, gone, stamp, c);
    }
  }

  lemma DeletedChain(d: Doc, ids: seq<TextId>, chains: seq<Chain>, gone: seq<TextId>, stamp: Stamp, c: Chain)
    requires Lists(d, ids, chains)
    ensures var d', taken := Union(d, Delta(Delete(gone), stamp)), Taken(gone, stamp);
            IsChain(d, c) && c != [] && Shown(d', c[|c| - 1]) <==> exists i :: 0 <= i < |chains| && chains[i] == c && ids[i] !in taken
  {
    var d', taken := Union(d, Delta(Delete(gone), stamp)), Taken(gone, stamp);
    if c != [] && IsChain(d, c) {
      var id := c[|c| - 1];
      DeletedAt(d, gone, stamp, id);
      assert Shown(d', id) <==> Shown(d, id) && id !in taken;
      if Shown(d, id) {
        assert c in chains;
        var i :| 0 <= i < |chains| && chains[i] == c;
        assert ids[i] == id;
      }
    }
    if i :| 0 <= i < |chains| && chains[i] == c && ids[i] !in taken {
      assert c in chains && Tip(c) == Some(ids[i]);
    }
  }

  /**
   The text read after a delete is the old one without the places of the older characters it names:
   all of them, in particular, if its stamp is later than theirs.
   */
  lemma DeleteString(d: Doc, ids: seq<TextId>, chains: seq<Chain>, s: string, gone: seq<TextId>, stamp: Stamp,
                     ids': seq<TextId>, chains': seq<Chain>, s': string)
    requires Lists(d, ids, chains) && Spells(d, ids, s)
    requires var d' := Union(d, Delta(Delete(gone), stamp)); Lists(d', ids', chains') && Spells(d', ids', s')
    ensures var taken := set id | id in gone && Less(id.stamp, stamp);
            && ids' == Remaining(ids, ids, taken) && s' == Remaining(s, ids, taken)
            && forall id :: id in ids' <==> id in ids && (id !in gone || !Less(id.stamp, stamp))
  {
    var d', taken := Union(d, Delta(Delete(gone), stamp)), Taken(gone, stamp);
    Deleted(d, ids, chains, gone, stamp);
    ListsUnique(d', ids', chains', Remaining(ids, ids, taken), Remaining(chains, ids, taken));
    RemainingSpelled(d, d', ids, s, taken);
    SpelledOnce(d', ids', s', Remaining(s, ids, taken));
    forall id ensures id in ids' <==> id in ids && (id !in gone || !Less(id.stamp, stamp)) {
      RemainingHas(ids, ids, taken, id);
    }
  }

  lemma SpelledOnce(d: Doc, ids: seq<TextId>, s: string, t: string)
    requires Spells(d, ids, s) && Spells(d, ids, t)
    ensures s == t
  {
  }

  /** A delete clock that is not later than its character hides nothing. */
  function Cleared(d: Doc): Doc {
    map id | id in d :: if d[id].deletedAt.Some? && Less(d[id].deletedAt.value, id.stamp) then d[id].(deletedAt := None) else d[id]
  }

  lemma StaleDeletes(d: Doc, ids: seq<TextId>, chains: seq<Chain>)
    requires Lists(d, ids, chains)
    ensures Lists(Cleared(d), ids, chains)
  {
    forall c ensures IsChain(d, c) <==> IsChain(Cleared(d), c) {
      SameChains(d, Cleared(d), c);
    }
  }

  // ---- formatting -------------------------------------------------------------------------------------

  /** The attributes in force on a character. */
  function Formatting(d: Doc, id: TextId): map<string, string>
    requires id in d
  {
    map k | k in d[id].attrs && d[id].attrs[k].value.Some? :: d[id].attrs[k].value.value
  }

  /** No attribute has been set later. */
  ghost predicate NewestFormat(d: Doc, stamp: Stamp) {
    forall id, k :: id in d && k in d[id].attrs ==> Less(d[id].attrs[k].stamp, stamp)
  }

  /** A format changes no list, and the attribute only of the characters it names. */
  lemma Formatted(d: Doc, ids: seq<TextId>, chains: seq<Chain>, named: seq<TextId>, key: string, value: Option<string>, stamp: Stamp)
    requires Lists(d, ids, chains)
    ensures Lists(Union(d, Delta(Format(named, key, value), stamp)), ids, chains)
  {
    var d' := Union(d, Delta(Format(named, key, value), stamp));
    forall c ensures IsChain(d, c) <==> IsChain(d', c) {
      SameChains(d, d', c);
    }
  }

  /** The latest format decides what its key reads on a character; removing a key makes it read nothing. */
  ghost predicate Restyled(d: Doc, d': Doc, named: seq<TextId>, key: string, value: Option<string>, id: TextId)
    requires id in d
  {
    && id in d'
    && Formatting(d', id) == if id !in named then Formatting(d, id)
                             else if value.Some? then Formatting(d, id)[key := value.value]
                             else Formatting(d, id) - {key}
  }

  lemma FormatReads(d: Doc, named: seq<TextId>, key: string, value: Option<string>, stamp: Stamp, id: TextId)
    requires id in d && NewestFormat(d, stamp)
    ensures Restyled(d, Union(d, Delta(Format(named, key, value), stamp)), named, key, value, id)
  {
    var d' := Union(d, Delta(Format(named, key, value), stamp));
    if id in named {
      R.AttrsSingle(d[id].attrs, key, Attr(value, stamp));
      assert d'[id].attrs == d[id].attrs[key := Attr(value, stamp)];
    }
  }

  lemma FormatsRead(d: Doc, named: seq<TextId>, key: string, value: Option<string>, stamp: Stamp)
    requires NewestFormat(d, stamp)
    ensures forall id :: id in d ==> Restyled(d, Union(d, Delta(Format(named, key, value), stamp)), named, key, value, id)
  {
    forall id | id in d ensures Restyled(d, Union(d, Delta(Format(named, key, value), stamp)), named, key, value, id) {
      FormatReads(d, named, key, value, stamp, id);
    }
  }

  /** A format leaves the text as it reads. */
  lemma FormatString(d: Doc, ids: seq<TextId>, chains: seq<Chain>, s: string, named: seq<TextId>, key: string, value: Option<string>, stamp: Stamp,
                     ids': seq<TextId>, chains': seq<Chain>, s': string)
    requires Lists(d, ids, chains) && Spells(d, ids, s)
    requires var d' := Union(d, Delta(Format(named, key, value), stamp)); Lists(d', ids', chains') && Spells(d', ids', s')
    ensures ids' == ids && s' == s
  {
    var d' := Union(d, Delta(Format(named, key, value), stamp));
    Formatted(d, ids, chains, named, key, value, stamp);
    ListsUnique(d', ids', chains', ids, chains);
    assert Spells(d', ids, s);
  }

  // ---- sessions ------------------------------------------------------------------------------------------

  /** The string is what a reader of the state sees. */
  ghost predicate Reads(d: Doc, s: string) {
    exists ids, chains :: Lists(d, ids, chains) && Spells(d, ids, s)
  }

  lemma ListedSound(d: Doc, ids: seq<TextId>, chains: seq<Chain>)
    requires Sound(d) && Lists(d, ids, chains)
    ensures forall i :: 0 <= i < |ids| ==> ids[i] in d && ids[i].stamp != ZERO
  {
    ListedHeld(d, ids, chains);
  }

  function Min(a: nat, b: nat): nat { if a < b then a else b }

  /**
   Typing at place `k` of what is read: with a stamp later than any in the text it is always accepted, and
   the text then reads as before with the string spliced in there.
   */
  method Type(t: R.Text, k: nat, text: string, stamp: Stamp) returns (r: Result<bool, Error>, was: string, now: string)
    requires Sound(t.entries) && Newest(t.entries, stamp) && stamp != ZERO && |text| <= U32_MAX
    modifies t
    ensures r == Ok(text != "") && Sound(t.entries)
    ensures Reads(old(t.entries), was) && Reads(t.entries, now)
    ensures var at := Min(k, |was|); now == was[..at] + text + was[at..]
  {
    ghost var d := t.entries;
    var ids;
    ghost var chains;
    ids, chains := TextWalks.VisibleIds(t.entries);
    ListedHeld(d, ids, chains);
    was := Spell(t.entries, ids);
    var at := Min(k, |ids|);
    var after := if at == 0 then None else Some(ids[at - 1]);
    ListedSound(d, ids, chains);
    r := t.Apply(Insert(after, text), stamp);
    TypedSound(d, after, text, stamp);
    ghost var ids', chains';
    now, ids', chains' := ReadString(t.entries);
    SpliceString(d, ids, chains, was, at, text, stamp, ids', chains', now);
  }

  lemma TypedSound(d: Doc, after: Option<TextId>, text: string, stamp: Stamp)
    requires Sound(d) && Newest(d, stamp) && stamp != ZERO && |text| <= U32_MAX && (after.Some? ==> after.value in d)
    ensures Sound(Union(d, Delta(Insert(after, text), stamp)))
    ensures Union(d, Delta(Insert(after, text), stamp)) != d <==> text != ""
  {
    var d' := Union(d, Delta(Insert(after, text), stamp));
    if text != "" {
      assert TextId(stamp, 0) in d' && TextId(stamp, 0) !in d;
    }
  }

  /** Deleting a stretch of what is read is always accepted, and exactly that stretch goes. */
  method Erase(t: R.Text, from: nat, to: nat, stamp: Stamp) returns (r: Result<bool, Error>, was: string, now: string)
    requires Sound(t.entries) && stamp != ZERO && from <= to && forall id :: id in t.entries ==> Less(id.stamp, stamp)
    modifies t
    ensures r.Ok? && Sound(t.entries)
    ensures Reads(old(t.entries), was) && Reads(t.entries, now)
    ensures to <= |was| ==> now == was[..from] + was[to..]
  {
    ghost var d := t.entries;
    var ids;
    ghost var chains;
    ids, chains := TextWalks.VisibleIds(t.entries);
    ListedHeld(d, ids, chains);
    was := Spell(t.entries, ids);
    var gone := if to <= |ids| then ids[from..to] else [];
    ListedSound(d, ids, chains);
    assert forall id :: id in gone ==> id in ids;
    r := t.Apply(Delete(gone), stamp);
    DeltaSound(Delete(gone), stamp);
    UnionSound(d, Delta(Delete(gone), stamp));
    ghost var ids', chains';
    now, ids', chains' := ReadString(t.entries);
    DeleteString(d, ids, chains, was, gone, stamp, ids', chains', now);
    if to <= |ids| {
      ErasedRange(d, ids, chains, was, from, to, stamp);
    }
  }

  lemma ErasedRange(d: Doc, ids: seq<TextId>, chains: seq<Chain>, s: string, from: nat, to: nat, stamp: Stamp)
    requires Lists(d, ids, chains) && |s| == |ids| && from <= to <= |ids| && forall i :: 0 <= i < |ids| ==> Less(ids[i].stamp, stamp)
    ensures Remaining(s, ids, Taken(ids[from..to], stamp)) == s[..from] + s[to..]
  {
    var taken := Taken(ids[from..to], stamp);
    ListedOnce(d, ids, chains);
    forall i | 0 <= i < |ids| ensures ids[i] in taken <==> from <= i < to {
      if from <= i < to {
        assert ids[from..to][i - from] == ids[i];
      }
      if ids[i] in ids[from..to] {
        var j :| 0 <= j < to - from && ids[from..to][j] == ids[i];
        assert ids[from + j] == ids[i];
      }
    }
    RemainingRange(s, ids, taken, from, to);
  }

  /**
   Formatting a stretch of what is read is always accepted, changes the attribute of exactly its characters, and
   leaves the text as it reads.
   */
  method Style(t: R.Text, from: nat, to: nat, key: string, value: Option<string>, stamp: Stamp)
    returns (r: Result<bool, Error>, was: string, now: string, ghost named: seq<TextId>, ghost ids: seq<TextId>, ghost chains: seq<Chain>)
    requires Sound(t.entries) && stamp != ZERO && from <= to && NewestFormat(t.entries, stamp)
    modifies t
    ensures r.Ok? && Sound(t.entries) && now == was && Reads(t.entries, now)
    ensures Lists(old(t.entries), ids, chains) && Spells(old(t.entries), ids, was) && named == if to <= |ids| then ids[from..to] else []
    ensures forall id :: id in old(t.entries) ==> Restyled(old(t.entries), t.entries, named, key, value, id)
  {
    ghost var d := t.entries;
    var visible;
    visible, chains := TextWalks.VisibleIds(t.entries);
    ListedHeld(d, visible, chains);
    was := Spell(t.entries, visible);
    var styled := if to <= |visible| then visible[from..to] else [];
    ids, named := visible, styled;
    ListedSound(d, ids, chains);
    assert forall id :: id in named ==> id in ids;
    FormatsRead(d, named, key, value, stamp);
    DeltaSound(Format(named, key, value), stamp);
    UnionSound(d, Delta(Format(named, key, value), stamp));
    r := t.Apply(Format(styled, key, value), stamp);
    ghost var ids', chains';
    now, ids', chains' := ReadString(t.entries);
    FormatString(d, ids, chains, was, named, key, value, stamp, ids', chains', now);
  }
}
