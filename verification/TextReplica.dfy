/** The replica object: `apply` and `merge` as loops that update the entry map in place. */
module TextReplicas {
  import opened Base
  import opened Stamps
  import opened Texts

  // ---- iteration in key order ----------------------------------------------

  lemma {:induction false} LeastExists(s: set<TextId>)
    requires s != {}
    ensures exists id :: id in s && forall j :: j in s ==> !IdLess(j, id)
  {
    var x :| x in s;
    if s != {x} {
      LeastExists(s - {x});
      var y :| y in s - {x} && forall j :: j in s - {x} ==> !IdLess(j, y);
      var least := if IdLess(x, y) then x else y;
      assert forall j :: j in s ==> j == x || j in s - {x};
      assert forall j :: j in s ==> !IdLess(j, least);
    } else {
      assert forall j :: j in s ==> j == x;
    }
  }

  /** The first conflicting character in key order, if any. */
  method FirstConflict(local: Doc, remote: Doc) returns (r: Option<TextId>)
    ensures r.None? <==> !Conflicting(local, remote)
    ensures r.Some? ==> Conflict(local, remote, r.value) && forall j :: Conflict(local, remote, j) ==> !IdLess(j, r.value)
  {
    var rest := remote.Keys;
    while rest != {}
      invariant rest <= remote.Keys && forall j :: Conflict(local, remote, j) ==> j in rest
      decreases rest
    {
      LeastExists(rest);
      var id :| id in rest && forall j :: j in rest ==> !IdLess(j, id);
      if id in local && local[id].content.Some? && remote[id].content.Some? && local[id].content != remote[id].content {
        assert Conflict(local, remote, id);
        return Some(id);
      }
      rest := rest - {id};
    }
    return None;
  }

  /** The first character of this insert that the state holds with other content, if any. */
  method FirstClash(d: Doc, op: Op, stamp: Stamp) returns (r: Option<TextId>)
    requires op.Insert?
    ensures r.None? <==> !Clashing(d, op, stamp)
    ensures r.Some? ==> Clashes(d, op, stamp, r.value) && forall j :: Clashes(d, op, stamp, j) ==> !IdLess(j, r.value)
  {
    var rest := set id | id in d && id.stamp == stamp;
    while rest != {}
      invariant rest <= d.Keys && forall j :: Clashes(d, op, stamp, j) ==> j in rest
      decreases rest
    {
      LeastExists(rest);
      var id :| id in rest && forall j :: j in rest ==> !IdLess(j, id);
      if Clashes(d, op, stamp, id) {
        return Some(id);
      }
      rest := rest - {id};
    }
    return None;
  }

  // ---- steps -----------------------------------------------------------------

  /** One more entry of the contribution `delta` has been merged into `d`. */
  lemma UnionStep(d0: Doc, delta: Doc, id: TextId, entry: Entry)
    requires id in delta ==> delta[id] == entry
    ensures var d := Union(d0, delta);
            && (id !in d ==> Union(d0, delta[id := entry]) == d[id := entry])
            && (id in d && id !in delta ==> Union(d0, delta[id := entry]) == d[id := MergeEntry(d[id], entry)])
            && (id in delta ==> delta[id := entry] == delta && MergeEntry(d[id], entry) == d[id])
  {
    if id in delta {
      UnionIdempotent(d0, delta);
      assert Union(Union(d0, delta), delta)[id] == MergeEntry(Union(d0, delta)[id], entry);
    }
  }

  /** Once a contribution has changed the state, a larger one does too. */
  lemma ChangeStays(d0: Doc, small: Doc, large: Doc)
    requires forall id :: id in small ==> id in large && large[id] == small[id]
    ensures Union(d0, large) == d0 ==> Union(d0, small) == d0
  {
    if Union(d0, large) == d0 {
      forall id | id in small ensures id in d0 && MergeEntry(d0[id], small[id]) == d0[id] {
        assert id in Union(d0, large);
        assert Union(d0, large)[id] == MergeEntry(d0[id], large[id]);
      }
    }
  }

  /** One entry of a contribution has been merged and the flag raised if that changed anything. */
  ghost predicate Stepped(d: Doc, id: TextId, entry: Entry, changed: bool, d': Doc, changed': bool) {
    && d' == d[id := if id in d then MergeEntry(d[id], entry) else entry]
    && changed' == (changed || d' != d)
  }

  lemma StepKeeps(d0: Doc, d: Doc, delta: Doc, id: TextId, entry: Entry, changed: bool, d': Doc, changed': bool)
    requires d == Union(d0, delta) && changed == (d != d0)
    requires id in delta ==> delta[id] == entry
    requires Stepped(d, id, entry, changed, d', changed')
    ensures d' == Union(d0, delta[id := entry]) && changed' == (d' != d0)
  {
    UnionStep(d0, delta, id, entry);
    ChangeStays(d0, delta, delta[id := entry]);
    if id in delta {
      assert d' == d;
    }
  }

  lemma EmptyUnion(d: Doc)
    ensures Union(d, map[]) == d
  {
  }

  // ---- one entry ---------------------------------------------------------------

  /** Merges attributes key by key. */
  method MergeAttributes(local: map<string, Attr>, remote: map<string, Attr>) returns (r: map<string, Attr>, changed: bool)
    ensures r == MergeAttrs(local, remote) && changed == (r != local)
  {
    r, changed := local, false;
    var rest := remote.Keys;
    while rest != {}
      invariant rest <= remote.Keys
      invariant forall k :: k in r <==> k in local || k in remote.Keys - rest
      invariant forall k :: k in r ==> r[k] == if k in rest then local[k] else MergeAttr(Lookup(local, k), Lookup(remote, k)).value
      invariant changed <==> r != local
      decreases rest
    {
      var key :| key in rest;
      if key !in r || Less(r[key].stamp, remote[key].stamp) {
        assert key in r ==> r[key] == local[key];
        r, changed := r[key := remote[key]], true;
      }
      rest := rest - {key};
    }
  }

  method MergeInto(local: Entry, remote: Entry) returns (merged: Entry, changed: bool)
    ensures merged == MergeEntry(local, remote) && changed == (merged != local)
  {
    merged, changed := local, false;
    if local.content.None? && remote.content.Some? {
      merged, changed := merged.(content := remote.content), true;
    }
    var clock, moved := MergeClock(local.deletedAt, remote.deletedAt);
    var attrs, formatted := MergeAttributes(local.attrs, remote.attrs);
    merged, changed := merged.(deletedAt := clock, attrs := attrs), changed || moved || formatted;
  }

  // ---- one character of an operation ------------------------------------------------

  lemma AttrsUnit(attrs: map<string, Attr>)
    ensures MergeAttrs(attrs, map[]) == attrs
  {
  }

  /** Records a character, or fills in its placeholder. */
  method AddCharacter(d: Doc, id: TextId, content: Content, changed: bool) returns (d': Doc, changed': bool)
    requires id in d && d[id].content.Some? ==> d[id].content.value == content
    ensures Stepped(d, id, Entry(Some(content), None, map[]), changed, d', changed')
  {
    d', changed' := d, changed;
    if id in d {
      AttrsUnit(d[id].attrs);
      if d[id].content.None? {
        d', changed' := d[id := d[id].(content := Some(content))], true;
      }
    } else {
      d', changed' := d[id := Entry(Some(content), None, map[])], true;
    }
  }

  /** Advances the delete clock of a character, or leaves a placeholder for it. */
  method DeleteCharacter(d: Doc, id: TextId, stamp: Stamp, changed: bool) returns (d': Doc, changed': bool)
    ensures Stepped(d, id, Entry(None, Some(stamp), map[]), changed, d', changed')
  {
    d', changed' := d, changed;
    if id in d {
      AttrsUnit(d[id].attrs);
      var clock, moved := MergeClock(d[id].deletedAt, Some(stamp));
      if moved {
        d', changed' := d[id := d[id].(deletedAt := clock)], true;
      }
    } else {
      d', changed' := d[id := Entry(None, Some(stamp), map[])], true;
    }
  }

  lemma AttrsSingle(attrs: map<string, Attr>, key: string, attr: Attr)
    ensures MergeAttrs(attrs, map[key := attr]) == if key in attrs && !Less(attrs[key].stamp, attr.stamp) then attrs else attrs[key := attr]
  {
  }

  /** Sets one attribute of a character, of a placeholder if need be, unless a later one is set. */
  method FormatCharacter(d: Doc, id: TextId, key: string, attr: Attr, changed: bool) returns (d': Doc, changed': bool)
    ensures Stepped(d, id, Entry(None, None, map[key := attr]), changed, d', changed')
  {
    d', changed' := d, changed;
    var entry := if id in d then d[id] else Entry(None, None, map[]);
    AttrsSingle(entry.attrs, key, attr);
    if key !in entry.attrs || Less(entry.attrs[key].stamp, attr.stamp) {
      d', changed' := d[id := entry.(attrs := entry.attrs[key := attr])], true;
      assert id in d ==> d'[id] != d[id];
    }
  }

  lemma InsertStep(d0: Doc, after: Option<TextId>, text: string, stamp: Stamp, n: nat)
    requires n < |text| && !Clashing(d0, Insert(after, text), stamp)
    ensures var delta, id := Delta(Insert(after, text[..n]), stamp), TextId(stamp, n);
            var content := Content(Anchor(after, stamp, n), text[n]);
            && id !in delta
            && Delta(Insert(after, text[..n + 1]), stamp) == delta[id := Entry(Some(content), None, map[])]
            && (id in Union(d0, delta) && Union(d0, delta)[id].content.Some? ==> Union(d0, delta)[id].content.value == content)
  {
    var id := TextId(stamp, n);
    assert id in d0 ==> !Clashes(d0, Insert(after, text), stamp, id);
  }

  // ---- the replica ---------------------------------------------------------------

  class Text {
    var entries: Doc

    constructor ()
      ensures entries == map[]
    {
      entries := map[];
    }

    /** Records the characters of an insert that nothing in the state contradicts. */
    method InsertAll(after: Option<TextId>, text: string, stamp: Stamp) returns (changed: bool)
      requires !Clashing(entries, Insert(after, text), stamp)
      modifies this
      ensures entries == Union(old(entries), Delta(Insert(after, text), stamp))
      ensures changed == (entries != old(entries))
    {
      changed := false;
      var previous := after;
      ghost var d0, delta := entries, Delta(Insert(after, text[..0]), stamp);
      EmptyUnion(d0);
      for offset := 0 to |text|
        invariant previous == Anchor(after, stamp, offset)
        invariant delta == Delta(Insert(after, text[..offset]), stamp)
        invariant entries == Union(d0, delta) && changed == (entries != d0)
      {
        InsertStep(d0, after, text, stamp, offset);
        var id, content := TextId(stamp, offset), Content(previous, text[offset]);
        var next, flag := AddCharacter(entries, id, content, changed);
        StepKeeps(d0, entries, delta, id, Entry(Some(content), None, map[]), changed, next, flag);
        delta := delta[id := Entry(Some(content), None, map[])];
        entries, changed, previous := next, flag, Some(id);
      }
      assert text[..|text|] == text;
    }

    /** Marks the characters older than the operation as deleted. */
    method DeleteAll(ids: seq<TextId>, stamp: Stamp) returns (changed: bool)
      modifies this
      ensures entries == Union(old(entries), Delta(Delete(ids), stamp))
      ensures changed == (entries != old(entries))
    {
      changed := false;
      ghost var d0, delta := entries, Delta(Delete(ids[..0]), stamp);
      EmptyUnion(d0);
      for i := 0 to |ids|
        invariant delta == Delta(Delete(ids[..i]), stamp)
        invariant entries == Union(d0, delta) && changed == (entries != d0)
      {
        DeleteStep(ids, stamp, i);
        if Less(ids[i].stamp, stamp) {
          var next, flag := DeleteCharacter(entries, ids[i], stamp, changed);
          StepKeeps(d0, entries, delta, ids[i], Entry(None, Some(stamp), map[]), changed, next, flag);
          delta := delta[ids[i] := Entry(None, Some(stamp), map[])];
          entries, changed := next, flag;
        }
      }
      assert ids[..|ids|] == ids;
    }

    method FormatAll(ids: seq<TextId>, key: string, value: Option<string>, stamp: Stamp) returns (changed: bool)
      modifies this
      ensures entries == Union(old(entries), Delta(Format(ids, key, value), stamp))
      ensures changed == (entries != old(entries))
    {
      changed := false;
      ghost var d0, delta := entries, Delta(Format(ids[..0], key, value), stamp);
      EmptyUnion(d0);
      for i := 0 to |ids|
        invariant delta == Delta(Format(ids[..i], key, value), stamp)
        invariant entries == Union(d0, delta) && changed == (entries != d0)
      {
        FormatStep(ids, key, value, stamp, i);
        var attr := Attr(value, stamp);
        var next, flag := FormatCharacter(entries, ids[i], key, attr, changed);
        StepKeeps(d0, entries, delta, ids[i], Entry(None, None, map[key := attr]), changed, next, flag);
        delta := delta[ids[i] := Entry(None, None, map[key := attr])];
        entries, changed := next, flag;
      }
      assert ids[..|ids|] == ids;
    }

    /**
     Applies an operation. It fails, leaving the state alone, when the operation is malformed or
     contradicts a character already held, and then names the first such character; otherwise it
     equals merging the operation's own contribution, and reports whether that changed the state.
     */
    method Apply(op: Op, stamp: Stamp) returns (r: Result<bool, Error>)
      modifies this
      ensures r.Ok? <==> Refusal(op, stamp).None? && !Clashing(old(entries), op, stamp)
      ensures r.Ok? ==> entries == Union(old(entries), Delta(op, stamp)) && r.value == (entries != old(entries))
      ensures r.Err? ==> entries == old(entries)
      ensures Refusal(op, stamp).Some? ==> r == Err(Refusal(op, stamp).value)
      ensures (r.Err? && Refusal(op, stamp).None?) ==>
                && r.error.InsertConflict? && op.Insert? && Clashes(old(entries), op, stamp, r.error.id)
                && forall id :: Clashes(old(entries), op, stamp, id) ==> !IdLess(id, r.error.id)
    {
      if stamp == ZERO {
        return Err(ZeroClock);
      }
      var changed;
      match op
      case Insert(after, text) =>
        if after.Some? && after.value.stamp == ZERO {
          return Err(ZeroId);
        }
        if after.Some? && after.value.stamp == stamp {
          return Err(SelfAnchor);
        }
        if |text| > U32_MAX {
          return Err(TooLong);
        }
        var clash := FirstClash(entries, op, stamp);
        if clash.Some? {
          return Err(InsertConflict(clash.value));
        }
        changed := InsertAll(after, text, stamp);
        return Ok(changed);
      case Delete(ids) =>
        if exists id :: id in ids && id.stamp == ZERO {
          return Err(ZeroId);
        }
        changed := DeleteAll(ids, stamp);
        return Ok(changed);
      case Format(ids, key, value) =>
        if exists id :: id in ids && id.stamp == ZERO {
          return Err(ZeroId);
        }
        changed := FormatAll(ids, key, value, stamp);
        return Ok(changed);
    }

    /**
     Merges a remote state. It fails, leaving the state alone, exactly when some character has
     different content on the two sides, and then names the first such character.
     */
    method Merge(remote: Doc) returns (r: Result<bool, Error>)
      modifies this
      ensures r.Ok? <==> !Conflicting(old(entries), remote)
      ensures r.Ok? ==> entries == Union(old(entries), remote) && r.value == (entries != old(entries))
      ensures r.Err? ==> entries == old(entries) && r.error.InsertConflict? && Conflict(entries, remote, r.error.id)
      ensures r.Err? ==> forall id :: Conflict(entries, remote, id) ==> !IdLess(id, r.error.id)
    {
      var conflict := FirstConflict(entries, remote);
      if conflict.Some? {
        return Err(InsertConflict(conflict.value));
      }
      var changed, rest := false, remote.Keys;
      ghost var d0, delta: Doc := entries, map[];
      EmptyUnion(d0);
      while rest != {}
        invariant rest <= remote.Keys
        invariant forall id :: id in delta <==> id in remote && id !in rest
        invariant forall id :: id in delta ==> delta[id] == remote[id]
        invariant entries == Union(d0, delta) && changed == (entries != d0)
        decreases rest
      {
        var id :| id in rest;
        ghost var before, was := entries, changed;
        if id in entries {
          var merged, moved := MergeInto(entries[id], remote[id]);
          entries, changed := entries[id := merged], changed || moved;
        } else {
          entries, changed := entries[id := remote[id]], true;
        }
        StepKeeps(d0, before, delta, id, remote[id], was, entries, changed);
        delta := delta[id := remote[id]];
        rest := rest - {id};
      }
      assert delta == remote;
      return Ok(changed);
    }
  }

  lemma DeleteStep(ids: seq<TextId>, stamp: Stamp, n: nat)
    requires n < |ids|
    ensures var delta := Delta(Delete(ids[..n]), stamp);
            && (ids[n] in delta ==> delta[ids[n]] == Entry(None, Some(stamp), map[]))
            && Delta(Delete(ids[..n + 1]), stamp) == if Less(ids[n].stamp, stamp) then delta[ids[n] := Entry(None, Some(stamp), map[])] else delta
  {
    assert ids[..n + 1] == ids[..n] + [ids[n]];
  }

  lemma FormatStep(ids: seq<TextId>, key: string, value: Option<string>, stamp: Stamp, n: nat)
    requires n < |ids|
    ensures var delta, entry := Delta(Format(ids[..n], key, value), stamp), Entry(None, None, map[key := Attr(value, stamp)]);
            && (ids[n] in delta ==> delta[ids[n]] == entry)
            && Delta(Format(ids[..n + 1], key, value), stamp) == delta[ids[n] := entry]
  {
    assert ids[..n + 1] == ids[..n] + [ids[n]];
  }
}
