/**
 Convergence of text: what a replica holds is determined by the set of operations it has
 seen, however they reached it: in any order, any number of times, one by one or inside
 merged states.
 */
module TextConvergence {
  import opened Base
  import opened Stamps
  import opened Texts
  import opened TextOrders

  datatype Event = Event(stamp: Stamp, op: Op)

  function D(e: Event): Doc { Delta(e.op, e.stamp) }

  /** Each stamp belongs to one operation. */
  ghost predicate Consistent(s: set<Event>) {
    forall e, f :: e in s && f in s && e.stamp == f.stamp ==> e == f
  }

  predicate HasContent(d: Doc, id: TextId, c: Content) { id in d && d[id].content == Some(c) }

  predicate HasDelete(d: Doc, id: TextId, s: Stamp) { id in d && d[id].deletedAt == Some(s) }

  predicate HasAttr(d: Doc, id: TextId, k: string, a: Attr) { id in d && k in d[id].attrs && d[id].attrs[k] == a }

  // ---- the state described by a set of operations ------------------------

  ghost predicate Presence(d: Doc, s: set<Event>) {
    && (forall id :: id in d ==> exists e :: e in s && id in D(e))
    && (forall e, id :: e in s && id in D(e) ==> id in d)
  }

  /** A character has the content its insert gave it. */
  ghost predicate Contents(d: Doc, s: set<Event>) {
    && (forall id, c :: HasContent(d, id, c) ==> exists e :: e in s && HasContent(D(e), id, c))
    && (forall e, id, c :: e in s && HasContent(D(e), id, c) ==> HasContent(d, id, c))
  }

  /** A character's deletion clock is the latest of the deletes that name it. */
  ghost predicate Deletes(d: Doc, s: set<Event>) {
    && (forall id, t :: HasDelete(d, id, t) ==> exists e :: e in s && HasDelete(D(e), id, t))
    && (forall e, id, t {:trigger HasDelete(D(e), id, t)} :: e in s && HasDelete(D(e), id, t) ==>
          id in d && d[id].deletedAt.Some? && Leq(t, d[id].deletedAt.value))
  }

  /** A formatting attribute is the one with the latest stamp. */
  ghost predicate Attrs(d: Doc, s: set<Event>) {
    && (forall id, k, a :: HasAttr(d, id, k, a) ==> exists e :: e in s && HasAttr(D(e), id, k, a))
    && (forall e, id, k, a :: e in s && HasAttr(D(e), id, k, a) ==>
          id in d && k in d[id].attrs && Leq(a.stamp, d[id].attrs[k].stamp))
  }

  ghost predicate Describes(d: Doc, s: set<Event>) {
    Presence(d, s) && Contents(d, s) && Deletes(d, s) && Attrs(d, s)
  }

  lemma DeltaFacts(e: Event, id: TextId)
    requires id in D(e)
    ensures D(e)[id].content.Some? ==> id.stamp == e.stamp
    ensures forall k :: k in D(e)[id].attrs ==> D(e)[id].attrs[k].stamp == e.stamp
  {
  }

  /** Two states described by consistent operations do not conflict. */
  lemma NoConflict(a: Doc, s: set<Event>, b: Doc, t: set<Event>, id: TextId)
    requires Contents(a, s) && Contents(b, t) && Consistent(s + t)
    ensures !Conflict(a, b, id)
  {
    if id in a && id in b && a[id].content.Some? && b[id].content.Some? {
      var c, c' := a[id].content.value, b[id].content.value;
      assert HasContent(a, id, c) && HasContent(b, id, c');
      var e :| e in s && HasContent(D(e), id, c);
      var f :| f in t && HasContent(D(f), id, c');
      DeltaFacts(e, id);
      DeltaFacts(f, id);
      assert e in s + t && f in s + t;
    }
  }

  lemma UnionPresence(a: Doc, s: set<Event>, b: Doc, t: set<Event>)
    requires Presence(a, s) && Presence(b, t)
    ensures Presence(Union(a, b), s + t)
  {
  }

  lemma UnionContents(a: Doc, s: set<Event>, b: Doc, t: set<Event>)
    requires Contents(a, s) && Contents(b, t) && Consistent(s + t)
    ensures Contents(Union(a, b), s + t)
  {
    var u := Union(a, b);
    forall id, c | HasContent(u, id, c) ensures exists e :: e in s + t && HasContent(D(e), id, c) {
      if HasContent(a, id, c) {
        var e :| e in s && HasContent(D(e), id, c);
        assert e in s + t;
      } else {
        assert HasContent(b, id, c);
        var e :| e in t && HasContent(D(e), id, c);
        assert e in s + t;
      }
    }
    forall e, id, c | e in s + t && HasContent(D(e), id, c) ensures HasContent(u, id, c) {
      NoConflict(a, s, b, t, id);
      assert e in s ==> HasContent(a, id, c);
      assert e in t ==> HasContent(b, id, c);
    }
  }

  lemma UnionDeletes(a: Doc, s: set<Event>, b: Doc, t: set<Event>)
    requires Deletes(a, s) && Deletes(b, t)
    ensures Deletes(Union(a, b), s + t)
  {
    var u := Union(a, b);
    forall id, x | HasDelete(u, id, x) ensures exists e :: e in s + t && HasDelete(D(e), id, x) {
      if HasDelete(a, id, x) {
        var e :| e in s && HasDelete(D(e), id, x);
        assert e in s + t;
      } else {
        assert HasDelete(b, id, x);
        var e :| e in t && HasDelete(D(e), id, x);
        assert e in s + t;
      }
    }
    forall e, id, x | e in s + t && HasDelete(D(e), id, x)
      ensures id in u && u[id].deletedAt.Some? && Leq(x, u[id].deletedAt.value)
    {
      if e in s {
        assert id in a && a[id].deletedAt.Some? && Leq(x, a[id].deletedAt.value);
      } else {
        assert id in b && b[id].deletedAt.Some? && Leq(x, b[id].deletedAt.value);
      }
    }
  }

  lemma UnionAttrs(a: Doc, s: set<Event>, b: Doc, t: set<Event>)
    requires Attrs(a, s) && Attrs(b, t)
    ensures Attrs(Union(a, b), s + t)
  {
    var u := Union(a, b);
    forall id, k, x | HasAttr(u, id, k, x) ensures exists e :: e in s + t && HasAttr(D(e), id, k, x) {
      if HasAttr(a, id, k, x) {
        var e :| e in s && HasAttr(D(e), id, k, x);
        assert e in s + t;
      } else {
        assert HasAttr(b, id, k, x);
        var e :| e in t && HasAttr(D(e), id, k, x);
        assert e in s + t;
      }
    }
    forall e, id, k, x | e in s + t && HasAttr(D(e), id, k, x)
      ensures id in u && k in u[id].attrs && Leq(x.stamp, u[id].attrs[k].stamp)
    {
      if e in s {
        assert id in a && k in a[id].attrs && Leq(x.stamp, a[id].attrs[k].stamp);
      } else {
        assert id in b && k in b[id].attrs && Leq(x.stamp, b[id].attrs[k].stamp);
      }
    }
  }

  /** Merging two described states describes the union of their operations. */
  lemma UnionDescribes(a: Doc, s: set<Event>, b: Doc, t: set<Event>)
    requires Describes(a, s) && Describes(b, t) && Consistent(s + t)
    ensures !Conflicting(a, b) && Describes(Union(a, b), s + t)
  {
    assert !Conflicting(a, b) by {
      forall id ensures !Conflict(a, b, id) { NoConflict(a, s, b, t, id); }
    }
    UnionPresence(a, s, b, t);
    UnionContents(a, s, b, t);
    UnionDeletes(a, s, b, t);
    UnionAttrs(a, s, b, t);
  }

  lemma DeltaDescribes(e: Event)
    ensures Describes(D(e), {e})
  {
    var s := {e};
    forall id, c | HasContent(D(e), id, c) ensures exists f :: f in s && HasContent(D(f), id, c) { assert e in s; }
    forall id, x | HasDelete(D(e), id, x) ensures exists f :: f in s && HasDelete(D(f), id, x) { assert e in s; }
    forall id, k, x | HasAttr(D(e), id, k, x) ensures exists f :: f in s && HasAttr(D(f), id, k, x) { assert e in s; }
  }

  /** A set of operations describes at most one state. */
  lemma Unique(a: Doc, b: Doc, s: set<Event>)
    requires Describes(a, s) && Describes(b, s) && Consistent(s)
    ensures a == b
  {
    assert a.Keys == b.Keys;
    forall id | id in a ensures a[id] == b[id] {
      assert a[id].content == b[id].content by { UniqueContent(a, b, s, id); }
      assert a[id].deletedAt == b[id].deletedAt by { UniqueDelete(a, b, s, id); }
      assert a[id].attrs == b[id].attrs by { UniqueAttrs(a, b, s, id); }
    }
  }

  lemma UniqueContent(a: Doc, b: Doc, s: set<Event>, id: TextId)
    requires Contents(a, s) && Contents(b, s) && id in a && id in b
    ensures a[id].content == b[id].content
  {
    if a[id].content.Some? {
      SameContent(a, b, s, id, a[id].content.value);
    } else if b[id].content.Some? {
      SameContent(b, a, s, id, b[id].content.value);
    }
  }

  lemma SameContent(a: Doc, b: Doc, s: set<Event>, id: TextId, c: Content)
    requires Contents(a, s) && Contents(b, s) && HasContent(a, id, c)
    ensures HasContent(b, id, c)
  {
    var e :| e in s && HasContent(D(e), id, c);
  }

  lemma UniqueDelete(a: Doc, b: Doc, s: set<Event>, id: TextId)
    requires Deletes(a, s) && Deletes(b, s) && id in a && id in b
    ensures a[id].deletedAt == b[id].deletedAt
  {
    if a[id].deletedAt.Some? {
      NoLaterDelete(a, b, s, id, a[id].deletedAt.value);
    }
    if b[id].deletedAt.Some? {
      NoLaterDelete(b, a, s, id, b[id].deletedAt.value);
    }
  }

  lemma NoLaterDelete(a: Doc, b: Doc, s: set<Event>, id: TextId, x: Stamp)
    requires Deletes(a, s) && Deletes(b, s) && HasDelete(a, id, x) && id in b
    ensures b[id].deletedAt.Some? && Leq(x, b[id].deletedAt.value)
  {
    var e :| e in s && HasDelete(D(e), id, x);
  }

  lemma UniqueAttrs(a: Doc, b: Doc, s: set<Event>, id: TextId)
    requires Attrs(a, s) && Attrs(b, s) && Consistent(s) && id in a && id in b
    ensures a[id].attrs == b[id].attrs
  {
    forall k | k in a[id].attrs ensures k in b[id].attrs && b[id].attrs[k] == a[id].attrs[k] {
      var e := AttrSource(a, s, id, k);
      assert HasAttr(D(e), id, k, a[id].attrs[k]);
      var f := AttrSource(b, s, id, k);
      assert HasAttr(D(f), id, k, b[id].attrs[k]);
    }
    forall k | k in b[id].attrs ensures k in a[id].attrs {
      var f := AttrSource(b, s, id, k);
      assert HasAttr(D(f), id, k, b[id].attrs[k]);
    }
  }

  lemma AttrSource(a: Doc, s: set<Event>, id: TextId, k: string) returns (e: Event)
    requires Attrs(a, s) && id in a && k in a[id].attrs
    ensures e in s && HasAttr(D(e), id, k, a[id].attrs[k]) && e.stamp == a[id].attrs[k].stamp
  {
    assert HasAttr(a, id, k, a[id].attrs[k]);
    e :| e in s && HasAttr(D(e), id, k, a[id].attrs[k]);
    DeltaFacts(e, id);
  }

  // ---- histories ---------------------------------------------------------

  /** How a replica came to its state: deliveries of operations and merges with other replicas. */
  datatype History =
    | Fresh
    | Deliver(before: History, event: Event)
    | Join(left: History, right: History)

  /** Applying an operation to a state; a refused or clashing one leaves the state alone. */
  ghost function Applied(d: Doc, e: Event): Doc {
    if Refusal(e.op, e.stamp).Some? || Clashing(d, e.op, e.stamp) then d else Union(d, D(e))
  }

  ghost function Merged(a: Doc, b: Doc): Doc {
    if Conflicting(a, b) then a else Union(a, b)
  }

  ghost function State(h: History): Doc {
    match h
    case Fresh => map[]
    case Deliver(before, e) => Applied(State(before), e)
    case Join(left, right) => Merged(State(left), State(right))
  }

  /** The operations that took part in a history, without the ones refused outright. */
  ghost function Seen(h: History): set<Event> {
    match h
    case Fresh => {}
    case Deliver(before, e) => Seen(before) + if Refusal(e.op, e.stamp).Some? then {} else {e}
    case Join(left, right) => Seen(left) + Seen(right)
  }

  /** An insert cannot clash with a state made of consistently stamped operations. */
  lemma NoClash(d: Doc, s: set<Event>, e: Event, id: TextId)
    requires Contents(d, s) && Consistent(s + {e})
    ensures e.op.Insert? ==> !Clashes(d, e.op, e.stamp, id)
  {
    if e.op.Insert? && id in d && id.stamp == e.stamp && d[id].content.Some? {
      var c := d[id].content.value;
      assert HasContent(d, id, c);
      var f :| f in s && HasContent(D(f), id, c);
      DeltaFacts(f, id);
      assert f in s + {e} && e in s + {e};
      InsertContent(e, id, c);
    }
  }

  lemma InsertContent(e: Event, id: TextId, c: Content)
    requires HasContent(D(e), id, c)
    ensures e.op.Insert? && id.stamp == e.stamp && id.offset < |e.op.text|
    ensures c == Content(Anchor(e.op.after, e.stamp, id.offset), e.op.text[id.offset])
  {
  }

  /** Every replica's state is the one its operations describe, and nothing it does fails but refusals. */
  lemma {:induction false} StateDescribed(h: History)
    requires Consistent(Seen(h))
    ensures Describes(State(h), Seen(h))
    ensures h.Join? ==> !Conflicting(State(h.left), State(h.right))
    ensures h.Deliver? && Refusal(h.event.op, h.event.stamp).None? ==> !Clashing(State(h.before), h.event.op, h.event.stamp)
  {
    match h
    case Fresh =>
    case Deliver(before, e) =>
      StateDescribed(before);
      if Refusal(e.op, e.stamp).None? {
        AppliedDescribes(State(before), Seen(before), e);
      }
    case Join(left, right) =>
      StateDescribed(left);
      StateDescribed(right);
      UnionDescribes(State(left), Seen(left), State(right), Seen(right));
  }

  lemma AppliedDescribes(d: Doc, s: set<Event>, e: Event)
    requires Describes(d, s) && Consistent(s + {e}) && Refusal(e.op, e.stamp).None?
    ensures !Clashing(d, e.op, e.stamp) && Describes(Applied(d, e), s + {e})
  {
    forall id ensures e.op.Insert? ==> !Clashes(d, e.op, e.stamp, id) {
      NoClash(d, s, e, id);
    }
    DeltaDescribes(e);
    UnionDescribes(d, s, D(e), {e});
  }

  /** Two replicas that have seen the same operations are in the same state. */
  lemma Convergence(h1: History, h2: History)
    requires Seen(h1) == Seen(h2) && Consistent(Seen(h1))
    ensures State(h1) == State(h2)
  {
    StateDescribed(h1);
    StateDescribed(h2);
    Unique(State(h1), State(h2), Seen(h1));
  }

  /** Two replicas that show the same two characters show them in the same order, whatever each has seen. */
  lemma ReplicasAgreeOnOrder(h1: History, ids: seq<TextId>, chains: seq<Chain>, h2: History, ids': seq<TextId>, chains': seq<Chain>,
                             i: nat, j: nat, i': nat, j': nat)
    requires Consistent(Seen(h1) + Seen(h2)) && Lists(State(h1), ids, chains) && Lists(State(h2), ids', chains')
    requires i < |ids| && j < |ids| && i' < |ids'| && j' < |ids'| && ids[i] == ids'[i'] && ids[j] == ids'[j']
    ensures i < j <==> i' < j'
  {
    StateDescribed(h1);
    StateDescribed(h2);
    UnionDescribes(State(h1), Seen(h1), State(h2), Seen(h2));
    OrderStable(State(h1), ids, chains, State(h2), ids', chains', i, j, i', j');
  }
}
