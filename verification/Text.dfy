/**
 Collaborative text: the replicated state, its operations and its merge.

 A character is identified by the stamp of its insert and its offset in it. A state maps
 identities to entries; an entry without content is a placeholder for a character whose
 insert has not arrived.
 */
module Texts {
  import opened Base
  import opened Stamps

  datatype TextId = TextId(stamp: Stamp, offset: nat)

  datatype Content = Content(after: Option<TextId>, character: char)

  datatype Attr = Attr(value: Option<string>, stamp: Stamp)

  datatype Entry = Entry(content: Option<Content>, deletedAt: Option<Stamp>, attrs: map<string, Attr>)

  type Doc = map<TextId, Entry>

  datatype Op =
    | Insert(after: Option<TextId>, text: string)
    | Delete(ids: seq<TextId>)
    | Format(ids: seq<TextId>, key: string, value: Option<string>)

  datatype Error = ZeroClock | ZeroId | SelfAnchor | TooLong | InsertConflict(id: TextId)

  const U32_MAX: nat := 0xFFFF_FFFF

  predicate IdLess(a: TextId, b: TextId) {
    Less(a.stamp, b.stamp) || (a.stamp == b.stamp && a.offset < b.offset)
  }

  // ---- merge -----------------------------------------------------------

  /** The attribute that survives: the later stamp, the local one on a tie. */
  function MergeAttr(a: Option<Attr>, b: Option<Attr>): Option<Attr> {
    if b.None? then a else if a.None? || Less(a.value.stamp, b.value.stamp) then b else a
  }

  function MergeAttrs(a: map<string, Attr>, b: map<string, Attr>): map<string, Attr> {
    map k | k in a.Keys + b.Keys :: MergeAttr(Lookup(a, k), Lookup(b, k)).value
  }

  function MergeEntry(a: Entry, b: Entry): Entry {
    Entry(if a.content.None? then b.content else a.content, Later(a.deletedAt, b.deletedAt), MergeAttrs(a.attrs, b.attrs))
  }

  /** The union of two states; entries present in both are merged field by field. */
  function Union(a: Doc, b: Doc): Doc {
    map id | id in a.Keys + b.Keys :: if id !in a then b[id] else if id !in b then a[id] else MergeEntry(a[id], b[id])
  }

  /** Both hold the character, with different content. */
  predicate Conflict(a: Doc, b: Doc, id: TextId) {
    id in a && id in b && a[id].content.Some? && b[id].content.Some? && a[id].content != b[id].content
  }

  ghost predicate Conflicting(a: Doc, b: Doc) {
    exists id :: Conflict(a, b, id)
  }

  // ---- operations ------------------------------------------------------

  function Anchor(after: Option<TextId>, stamp: Stamp, offset: nat): Option<TextId> {
    if offset == 0 then after else Some(TextId(stamp, offset - 1))
  }

  /** The identities of the characters of one insert. */
  function Ids(stamp: Stamp, n: nat): (s: set<TextId>)
    ensures forall id :: id in s <==> id.stamp == stamp && id.offset < n
  {
    set i | 0 <= i < n :: TextId(stamp, i)
  }

  /** The state an operation contributes on its own. */
  function Delta(op: Op, stamp: Stamp): Doc {
    match op
    case Insert(after, text) =>
      map id | id in Ids(stamp, |text|) :: Entry(Some(Content(Anchor(after, stamp, id.offset), text[id.offset])), None, map[])
    case Delete(ids) =>
      map id | id in ids && Less(id.stamp, stamp) :: Entry(None, Some(stamp), map[])
    case Format(ids, key, value) =>
      map id | id in ids :: Entry(None, None, map[key := Attr(value, stamp)])
  }

  /** Why an operation is refused whatever the state holds. */
  function Refusal(op: Op, stamp: Stamp): Option<Error> {
    if stamp == ZERO then Some(ZeroClock)
    else match op
      case Insert(after, text) =>
        if after.Some? && after.value.stamp == ZERO then Some(ZeroId)
        else if after.Some? && after.value.stamp == stamp then Some(SelfAnchor)
        else if |text| > U32_MAX then Some(TooLong)
        else None
      case Delete(ids) => if exists id :: id in ids && id.stamp == ZERO then Some(ZeroId) else None
      case Format(ids, _, _) => if exists id :: id in ids && id.stamp == ZERO then Some(ZeroId) else None
  }

  /** The operation names a character: as its anchor, or as one to delete or format. */
  ghost predicate Names(op: Op, id: TextId) {
    if op.Insert? then op.after == Some(id) else id in op.ids
  }

  /** The zero stamp is refused as a clock and in every id; an insert is refused its own characters as anchor, and a text too long to number. */
  lemma RefusedFor(op: Op, stamp: Stamp)
    ensures Refusal(op, stamp) == Some(ZeroClock) <==> stamp == ZERO
    ensures stamp != ZERO ==> (Refusal(op, stamp) == Some(ZeroId) <==> exists id :: Names(op, id) && id.stamp == ZERO)
    ensures stamp != ZERO ==> (Refusal(op, stamp) == Some(SelfAnchor) <==> op.Insert? && exists id :: Names(op, id) && id.stamp == stamp)
    ensures Refusal(op, stamp).None? <==>
              && stamp != ZERO && (forall id :: Names(op, id) ==> id.stamp != ZERO)
              && (op.Insert? ==> |op.text| <= U32_MAX && forall id :: Names(op, id) ==> id.stamp != stamp)
  {
    if op.Insert? && op.after.Some? {
      assert Names(op, op.after.value);
    } else if !op.Insert? && exists id :: id in op.ids && id.stamp == ZERO {
      var id :| id in op.ids && id.stamp == ZERO;
      assert Names(op, id);
    }
  }

  /** The state holds a character of this insert that the insert does not contain. */
  predicate Clashes(d: Doc, op: Op, stamp: Stamp, id: TextId)
    requires op.Insert?
  {
    && id in d && id.stamp == stamp && d[id].content.Some?
    && (id.offset >= |op.text| || d[id].content != Some(Content(Anchor(op.after, stamp, id.offset), op.text[id.offset])))
  }

  ghost predicate Clashing(d: Doc, op: Op, stamp: Stamp) {
    op.Insert? && exists id :: Clashes(d, op, stamp, id)
  }

  // ---- laws of merge -----------------------------------------------------

  /** No conflict, and equal stamps on one attribute carry equal values. */
  ghost predicate Agree(a: Doc, b: Doc) {
    && !Conflicting(a, b)
    && forall id, k ::
         (id in a && id in b && k in a[id].attrs && k in b[id].attrs && a[id].attrs[k].stamp == b[id].attrs[k].stamp) ==>
         a[id].attrs[k] == b[id].attrs[k]
  }

  lemma AttrsCommute(a: map<string, Attr>, b: map<string, Attr>)
    ensures MergeAttrs(a, b) == MergeAttrs(b, a) <==>
            forall k :: k in a && k in b && a[k].stamp == b[k].stamp ==> a[k] == b[k]
  {
    if MergeAttrs(a, b) == MergeAttrs(b, a) {
      forall k | k in a && k in b && a[k].stamp == b[k].stamp ensures a[k] == b[k] {
        assert MergeAttrs(a, b)[k] == a[k] && MergeAttrs(b, a)[k] == b[k];
      }
    }
  }

  lemma EntriesCommute(a: Entry, b: Entry)
    ensures MergeEntry(a, b) == MergeEntry(b, a) <==>
            && (a.content.Some? && b.content.Some? ==> a.content == b.content)
            && (forall k :: k in a.attrs && k in b.attrs && a.attrs[k].stamp == b.attrs[k].stamp ==> a.attrs[k] == b.attrs[k])
  {
    AttrsCommute(a.attrs, b.attrs);
  }

  /** Merge commutes on exactly the states that agree. */
  lemma UnionCommutes(a: Doc, b: Doc)
    ensures Union(a, b) == Union(b, a) <==> Agree(a, b)
  {
    forall id | id in a && id in b
      ensures MergeEntry(a[id], b[id]) == MergeEntry(b[id], a[id]) <==>
              && !Conflict(a, b, id)
              && (forall k :: k in a[id].attrs && k in b[id].attrs && a[id].attrs[k].stamp == b[id].attrs[k].stamp
                              ==> a[id].attrs[k] == b[id].attrs[k])
    {
      EntriesCommute(a[id], b[id]);
    }
    if Union(a, b) == Union(b, a) {
      forall id | id in a && id in b ensures MergeEntry(a[id], b[id]) == MergeEntry(b[id], a[id]) {
        assert Union(a, b)[id] == Union(b, a)[id];
      }
    }
  }

  lemma AttrAssociates(a: Option<Attr>, b: Option<Attr>, c: Option<Attr>)
    ensures MergeAttr(MergeAttr(a, b), c) == MergeAttr(a, MergeAttr(b, c))
  {
  }

  lemma AttrsAssociate(a: map<string, Attr>, b: map<string, Attr>, c: map<string, Attr>)
    ensures MergeAttrs(MergeAttrs(a, b), c) == MergeAttrs(a, MergeAttrs(b, c))
  {
    var l, r := MergeAttrs(MergeAttrs(a, b), c), MergeAttrs(a, MergeAttrs(b, c));
    assert l.Keys == r.Keys;
    forall k | k in l ensures l[k] == r[k] {
      AttrAssociates(Lookup(a, k), Lookup(b, k), Lookup(c, k));
      assert Lookup(MergeAttrs(a, b), k) == MergeAttr(Lookup(a, k), Lookup(b, k));
      assert Lookup(MergeAttrs(b, c), k) == MergeAttr(Lookup(b, k), Lookup(c, k));
    }
  }

  lemma EntriesAssociate(a: Entry, b: Entry, c: Entry)
    ensures MergeEntry(MergeEntry(a, b), c) == MergeEntry(a, MergeEntry(b, c))
  {
    AttrsAssociate(a.attrs, b.attrs, c.attrs);
    LaterAssociates(a.deletedAt, b.deletedAt, c.deletedAt);
  }

  lemma UnionAssociates(a: Doc, b: Doc, c: Doc)
    ensures Union(Union(a, b), c) == Union(a, Union(b, c))
  {
    forall id | id in a && id in b && id in c
      ensures MergeEntry(MergeEntry(a[id], b[id]), c[id]) == MergeEntry(a[id], MergeEntry(b[id], c[id]))
    {
      EntriesAssociate(a[id], b[id], c[id]);
    }
  }

  /** Merging a state, or part of one, a second time changes nothing. */
  lemma UnionIdempotent(a: Doc, b: Doc)
    ensures Union(a, a) == a && Union(Union(a, b), b) == Union(a, b)
  {
    UnionSelf(a);
    UnionSelf(b);
    UnionAssociates(a, b, b);
  }

  lemma UnionSelf(a: Doc)
    ensures Union(a, a) == a
  {
    forall id | id in a ensures MergeEntry(a[id], a[id]) == a[id] {
      assert MergeAttrs(a[id].attrs, a[id].attrs) == a[id].attrs;
    }
  }
}
