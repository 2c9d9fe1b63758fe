/** The replicated priority queue: elements pushed and not validly popped, whichever arrives first. */
module PriorityQueues {
  import opened Base
  import opened Stamps
  import opened ClockMaps

  /** A pop whose push has not arrived, or an element with its latest pop. */
  datatype Entry<V> =
    | PendingPop(at: Stamp)
    | Present(priority: int, value: V, deletedAt: Option<Stamp>)

  type Queue<V> = map<Stamp, Entry<V>>

  datatype Op<V> = Push(priority: int, value: V) | Pop(id: Stamp)

  datatype Event<V> = Event(stamp: Stamp, op: Op<V>)

  datatype Error = PushConflict(id: Stamp)

  function Popped<V>(e: Entry<V>): Option<Stamp> {
    if e.PendingPop? then Some(e.at) else e.deletedAt
  }

  /** The entry with a pop clock; a pending pop always has one. */
  function WithClock<V>(e: Entry<V>, at: Option<Stamp>): Entry<V> {
    if e.Present? then Present(e.priority, e.value, at) else if at.Some? then PendingPop(at.value) else e
  }

  function MergeEntry<V>(a: Entry<V>, b: Entry<V>): Entry<V> {
    WithClock(if a.Present? then a else b, Later(Popped(a), Popped(b)))
  }

  predicate Conflict<V(==)>(a: Queue<V>, b: Queue<V>, id: Stamp) {
    && id in a && id in b && a[id].Present? && b[id].Present?
    && (a[id].priority != b[id].priority || a[id].value != b[id].value)
  }

  function Union<V>(a: Queue<V>, b: Queue<V>): Queue<V> {
    map id | id in a.Keys + b.Keys :: if id !in a then b[id] else if id !in b then a[id] else MergeEntry(a[id], b[id])
  }

  /** The state an operation contributes on its own; a pop no later than its target contributes nothing. */
  function Delta<V>(e: Event<V>): Queue<V> {
    match e.op
    case Push(priority, value) => map[e.stamp := Present(priority, value, None)]
    case Pop(id) => if Less(id, e.stamp) then map[id := PendingPop(e.stamp)] else map[]
  }

  // ---- the closed form --------------------------------------------------------------------

  ghost predicate Consistent<V(!new)>(s: set<Event<V>>) {
    forall e, f :: e in s && f in s && e.stamp == f.stamp ==> e == f
  }

  /** The event pushes this element. */
  predicate Pushes<V>(e: Event<V>, id: Stamp) {
    e.op.Push? && e.stamp == id
  }

  /** The event validly pops this element. */
  predicate Pops<V>(e: Event<V>, id: Stamp) {
    e.op.Pop? && e.op.id == id && Less(id, e.stamp)
  }

  /** A pushed element is present with its content, a popped one carries the latest valid pop. */
  ghost predicate EntryOk<V(!new)>(q: Queue<V>, s: set<Event<V>>, id: Stamp) {
    && (id in q ==> exists e :: e in s && (Pushes(e, id) || Pops(e, id)))
    && (forall e :: e in s && (Pushes(e, id) || Pops(e, id)) ==> id in q)
    && (forall e :: e in s && Pushes(e, id) ==> q[id].Present? && q[id].priority == e.op.priority && q[id].value == e.op.value)
    && (id in q && q[id].Present? ==> exists e :: e in s && Pushes(e, id))
    && (forall e :: e in s && Pops(e, id) ==> Popped(q[id]).Some? && Leq(e.stamp, Popped(q[id]).value))
    && (id in q && Popped(q[id]).Some? ==> exists e :: e in s && Pops(e, id) && e.stamp == Popped(q[id]).value)
  }

  ghost predicate Describes<V(!new)>(q: Queue<V>, s: set<Event<V>>) {
    forall id :: EntryOk(q, s, id)
  }

  lemma UnionAt<V(!new)>(a: Queue<V>, s: set<Event<V>>, b: Queue<V>, t: set<Event<V>>, id: Stamp)
    requires EntryOk(a, s, id) && EntryOk(b, t, id) && Consistent(s + t)
    ensures EntryOk(Union(a, b), s + t, id) && !Conflict(a, b, id)
  {
    UnionHas(a, s, b, t, id);
    UnionContent(a, s, b, t, id);
    UnionClock(a, s, b, t, id);
  }

  lemma UnionHas<V(!new)>(a: Queue<V>, s: set<Event<V>>, b: Queue<V>, t: set<Event<V>>, id: Stamp)
    requires EntryOk(a, s, id) && EntryOk(b, t, id)
    ensures id in Union(a, b) ==> exists e :: e in s + t && (Pushes(e, id) || Pops(e, id))
  {
    if id in a {
      var e :| e in s && (Pushes(e, id) || Pops(e, id));
      assert e in s + t;
    } else if id in b {
      var e :| e in t && (Pushes(e, id) || Pops(e, id));
      assert e in s + t;
    }
  }

  lemma UnionContent<V(!new)>(a: Queue<V>, s: set<Event<V>>, b: Queue<V>, t: set<Event<V>>, id: Stamp)
    requires EntryOk(a, s, id) && EntryOk(b, t, id) && Consistent(s + t)
    ensures !Conflict(a, b, id)
    ensures id in Union(a, b) && Union(a, b)[id].Present? ==> exists e :: e in s + t && Pushes(e, id)
    ensures forall e :: e in s + t && Pushes(e, id) ==>
              id in Union(a, b) && Union(a, b)[id].Present? && Union(a, b)[id].priority == e.op.priority && Union(a, b)[id].value == e.op.value
  {
    if id in a && a[id].Present? {
      var e :| e in s && Pushes(e, id);
      assert e in s + t;
    }
    if id in b && b[id].Present? {
      var f :| f in t && Pushes(f, id);
      assert f in s + t;
    }
  }

  lemma UnionClock<V(!new)>(a: Queue<V>, s: set<Event<V>>, b: Queue<V>, t: set<Event<V>>, id: Stamp)
    requires EntryOk(a, s, id) && EntryOk(b, t, id)
    ensures forall e :: e in s + t && Pops(e, id) ==>
              id in Union(a, b) && Popped(Union(a, b)[id]).Some? && Leq(e.stamp, Popped(Union(a, b)[id]).value)
    ensures id in Union(a, b) && Popped(Union(a, b)[id]).Some? ==>
              exists e :: e in s + t && Pops(e, id) && e.stamp == Popped(Union(a, b)[id]).value
  {
    if id in Union(a, b) && Popped(Union(a, b)[id]).Some? {
      var at := Popped(Union(a, b)[id]);
      if id in a && Popped(a[id]) == at {
        var e :| e in s && Pops(e, id) && e.stamp == at.value;
        assert e in s + t;
      } else {
        var e :| e in t && Pops(e, id) && e.stamp == at.value;
        assert e in s + t;
      }
    }
  }

  lemma UnionDescribes<V(!new)>(a: Queue<V>, s: set<Event<V>>, b: Queue<V>, t: set<Event<V>>)
    requires Describes(a, s) && Describes(b, t) && Consistent(s + t)
    ensures Describes(Union(a, b), s + t) && forall id :: !Conflict(a, b, id)
  {
    forall id ensures EntryOk(Union(a, b), s + t, id) && !Conflict(a, b, id) {
      assert EntryOk(a, s, id) && EntryOk(b, t, id);
      UnionAt(a, s, b, t, id);
    }
  }

  lemma DeltaDescribes<V(!new)>(e: Event<V>)
    ensures Describes(Delta(e), {e})
  {
    assert e in {e};
  }

  /** The delivered operations determine the state. */
  lemma Unique<V(!new)>(a: Queue<V>, b: Queue<V>, s: set<Event<V>>)
    requires Describes(a, s) && Describes(b, s)
    ensures a == b
  {
    forall id ensures (id in a <==> id in b) && (id in a ==> a[id] == b[id]) {
      assert EntryOk(a, s, id) && EntryOk(b, s, id);
    }
  }

  // ---- histories ---------------------------------------------------------------------------

  ghost function State<V(!new)>(h: History<Event<V>>): Queue<V> {
    match h
    case Fresh => map[]
    case Deliver(before, e) => Union(State(before), Delta(e))
    case Merge(left, right) => Union(State(left), State(right))
  }

  lemma {:induction false} StateDescribed<V(!new)>(h: History<Event<V>>)
    requires Consistent(Seen(h))
    ensures Describes(State(h), Seen(h))
    ensures h.Deliver? ==> forall id :: !Conflict(State(h.before), Delta(h.event), id)
    ensures h.Merge? ==> forall id :: !Conflict(State(h.left), State(h.right), id)
  {
    match h
    case Fresh =>
    case Deliver(before, e) =>
      StateDescribed(before);
      DeltaDescribes(e);
      UnionDescribes(State(before), Seen(before), Delta(e), {e});
    case Merge(left, right) =>
      StateDescribed(left);
      StateDescribed(right);
      UnionDescribes(State(left), Seen(left), State(right), Seen(right));
  }

  /** Replicas that have seen the same operations are in the same state. */
  lemma Convergence<V(!new)>(h1: History<Event<V>>, h2: History<Event<V>>)
    requires Seen(h1) == Seen(h2) && Consistent(Seen(h1))
    ensures State(h1) == State(h2)
  {
    StateDescribed(h1);
    StateDescribed(h2);
    Unique(State(h1), State(h2), Seen(h1));
  }

  predicate Live<V>(q: Queue<V>, id: Stamp) {
    id in q && q[id].Present? && q[id].deletedAt.None?
  }

  /** An element is live iff it was pushed and not validly popped. */
  lemma LiveIff<V(!new)>(h: History<Event<V>>, id: Stamp)
    requires Consistent(Seen(h))
    ensures Live(State(h), id) <==>
            (exists e :: e in Seen(h) && Pushes(e, id)) && !exists f :: f in Seen(h) && Pops(f, id)
  {
    StateDescribed(h);
    assert EntryOk(State(h), Seen(h), id);
  }

  // ---- reading the queue -----------------------------------------------------------------------

  predicate Sooner<V>(q: Queue<V>, a: Stamp, b: Stamp)
    requires Live(q, a) && Live(q, b)
  {
    q[a].priority < q[b].priority || (q[a].priority == q[b].priority && Less(a, b))
  }

  /** The first of these live elements: least priority, then least stamp. */
  method First<V>(q: Queue<V>, ids: set<Stamp>) returns (r: Option<Stamp>)
    requires forall id :: id in ids ==> Live(q, id)
    ensures r.None? <==> ids == {}
    ensures r.Some? ==> r.value in ids && forall id :: id in ids && id != r.value ==> Sooner(q, r.value, id)
  {
    r := None;
    var rest := ids;
    while rest != {}
      invariant rest <= ids && (r.None? <==> rest == ids) && (r.Some? ==> r.value in ids && r.value !in rest)
      invariant r.Some? ==> forall id :: id in ids && id !in rest && id != r.value ==> Sooner(q, r.value, id)
      decreases rest
    {
      var id :| id in rest;
      if r.None? || Sooner(q, id, r.value) {
        r := Some(id);
      }
      rest := rest - {id};
    }
  }

  function LiveIds<V>(q: Queue<V>): (s: set<Stamp>)
    ensures forall id :: id in s <==> Live(q, id)
  {
    set id | id in q && Live(q, id)
  }

  /** The live elements in the order they would be popped. */
  method LiveList<V>(q: Queue<V>) returns (s: seq<Stamp>)
    ensures forall id :: id in s <==> Live(q, id)
    ensures forall i, j :: 0 <= i < j < |s| ==>
              && Live(q, s[i]) && Live(q, s[j])
              && (q[s[i]].priority < q[s[j]].priority || (q[s[i]].priority == q[s[j]].priority && Less(s[i], s[j])))
  {
    s := [];
    var rest := LiveIds(q);
    while rest != {}
      invariant rest <= LiveIds(q) && forall id :: id in s <==> Live(q, id) && id !in rest
      invariant forall i, j :: 0 <= i < j < |s| ==> Sooner(q, s[i], s[j])
      invariant forall i, id :: 0 <= i < |s| && id in rest ==> Sooner(q, s[i], id)
      decreases rest
    {
      var next := First(q, rest);
      s := s + [next.value];
      rest := rest - {next.value};
    }
  }

  /** The element a pop issued here would target: the first one live. */
  method PopTarget<V>(q: Queue<V>) returns (r: Option<Stamp>)
    ensures r.None? <==> forall id :: !Live(q, id)
    ensures r.Some? ==> Live(q, r.value) && forall id :: Live(q, id) && id != r.value ==>
              q[r.value].priority < q[id].priority || (q[r.value].priority == q[id].priority && Less(r.value, id))
  {
    r := First(q, LiveIds(q));
    assert r.None? ==> forall id :: id !in LiveIds(q);
    assert r.Some? ==> r.value in LiveIds(q);
  }

  /** A push with a new stamp is live, and a pop later than a live element ends it; nothing else changes. */
  lemma PushedLive<V(!new)>(q: Queue<V>, stamp: Stamp, priority: int, value: V)
    requires stamp !in q
    ensures Live(Union(q, Delta(Event(stamp, Push(priority, value)))), stamp)
    ensures forall id :: id != stamp ==> Lookup(Union(q, Delta(Event(stamp, Push(priority, value)))), id) == Lookup(q, id)
  {
  }

  lemma PoppedGone<V(!new)>(q: Queue<V>, stamp: Stamp, id: Stamp)
    requires Live(q, id) && Less(id, stamp)
    ensures !Live(Union(q, Delta(Event(stamp, Pop(id)))), id)
    ensures forall other :: other != id ==> Lookup(Union(q, Delta(Event(stamp, Pop(id)))), other) == Lookup(q, other)
  {
  }

  // ---- the replica --------------------------------------------------------------------------------

  /** Merges one entry into another; different contents under one stamp are refused. */
  method MergeInto<V(==)>(local: Entry<V>, remote: Entry<V>, id: Stamp) returns (r: Result<(Entry<V>, bool), Error>)
    ensures r.Err? <==> local.Present? && remote.Present? && (local.priority != remote.priority || local.value != remote.value)
    ensures r.Err? ==> r.error == PushConflict(id)
    ensures r.Ok? ==> r.value.0 == MergeEntry(local, remote) && r.value.1 == (r.value.0 != local)
  {
    var at, moved;
    match (local, remote)
    case (PendingPop(a), PendingPop(b)) =>
      at, moved := MergeClock(Some(a), Some(b));
      return Ok((PendingPop(at.value), moved));
    case (PendingPop(a), Present(priority, value, deletedAt)) =>
      at, moved := MergeClock(deletedAt, Some(a));
      return Ok((Present(priority, value, at), true));
    case (Present(priority, value, deletedAt), PendingPop(b)) =>
      at, moved := MergeClock(deletedAt, Some(b));
      return Ok((Present(priority, value, at), moved));
    case (Present(priority, value, deletedAt), Present(p, v, d)) =>
      if priority != p || value != v {
        return Err(PushConflict(id));
      }
      at, moved := MergeClock(deletedAt, d);
      return Ok((Present(priority, value, at), moved));
  }

  // ---- a merge that fails -------------------------------------------------------------------------

  /** The remote entries before a stamp. */
  function Before<V>(remote: Queue<V>, stop: Stamp): Queue<V> {
    map id | id in remote && Less(id, stop) :: remote[id]
  }

  ghost predicate FirstConflict<V(!new)>(a: Queue<V>, b: Queue<V>, stop: Stamp) {
    Conflict(a, b, stop) && forall id :: Conflict(a, b, id) ==> Leq(stop, id)
  }

  /** The remote entry is no news: its push is here already, and so is its pop or a later one. */
  predicate Absorbs<V>(a: Entry<V>, b: Entry<V>) {
    (b.Present? ==> a.Present?) && NotAfter(Popped(b), Popped(a))
  }

  /** A failed merge changes nothing exactly when every remote entry before the conflict was no news. */
  lemma StoppedSame<V(!new)>(a: Queue<V>, b: Queue<V>, stop: Stamp)
    requires FirstConflict(a, b, stop)
    ensures Union(a, Before(b, stop)) == a <==>
            forall id :: id in b && Less(id, stop) ==> id in a && Absorbs(a[id], b[id])
  {
    var u := Union(a, Before(b, stop));
    forall id | id in b && Less(id, stop) && id in a ensures u[id] == a[id] <==> Absorbs(a[id], b[id]) {
      assert !Conflict(a, b, id);
    }
    if u == a {
      forall id | id in b && Less(id, stop) ensures id in a && Absorbs(a[id], b[id]) {
        assert id in u;
      }
    }
  }

  /** Such a merge: the first push arrives, the second has two contents. */
  lemma MergeStops<V(!new)>(x: V, y: V)
    requires x != y
    ensures var s1, s2 := Stamp(1, 0, 1, 1), Stamp(2, 0, 1, 2);
            var a, b := map[s2 := Present(0, x, None)], map[s1 := Present(0, x, None), s2 := Present(0, y, None)];
            FirstConflict(a, b, s2) && Union(a, Before(b, s2)) != a
  {
    var s1, s2 := Stamp(1, 0, 1, 1), Stamp(2, 0, 1, 2);
    var a, b := map[s2 := Present(0, x, None)], map[s1 := Present(0, x, None), s2 := Present(0, y, None)];
    assert s1 in Union(a, Before(b, s2)) && s1 !in a;
  }

  class PriorityQueue<V(==, !new)> {
    var entries: Queue<V>

    constructor ()
      ensures entries == map[]
    {
      entries := map[];
    }

    /** Applies an operation: a push that contradicts the state fails, anything else is its union. */
    method Apply(e: Event<V>) returns (r: Result<bool, Error>)
      modifies this
      ensures r.Err? <==> Conflict(old(entries), Delta(e), e.stamp)
      ensures r.Err? ==> r.error == PushConflict(e.stamp) && unchanged(this)
      ensures r.Ok? ==> entries == Union(old(entries), Delta(e)) && r.value == (entries != old(entries))
    {
      match e.op
      case Push(priority, value) =>
        if e.stamp in entries {
          var entry := entries[e.stamp];
          if entry.Present? {
            if entry.priority != priority || entry.value != value {
              return Err(PushConflict(e.stamp));
            }
            assert entries == Union(entries, Delta(e));
            return Ok(false);
          }
          var next := Present(priority, value, Some(entry.at));
          assert Union(entries, Delta(e)) == entries[e.stamp := next];
          entries := entries[e.stamp := next];
        } else {
          assert Union(entries, Delta(e)) == entries[e.stamp := Present(priority, value, None)];
          entries := entries[e.stamp := Present(priority, value, None)];
        }
        return Ok(true);
      case Pop(id) =>
        if !Less(id, e.stamp) {
          assert Union(entries, Delta(e)) == entries;
          return Ok(false);
        }
        if id in entries {
          var at, moved := MergeClock(Popped(entries[id]), Some(e.stamp));
          assert Union(entries, Delta(e)) == entries[id := WithClock(entries[id], at)];
          entries := entries[id := WithClock(entries[id], at)];
          return Ok(moved);
        }
        assert Union(entries, Delta(e)) == entries[id := PendingPop(e.stamp)];
        entries := entries[id := PendingPop(e.stamp)];
        return Ok(true);
    }

    /**
     Merges a remote state, entry by entry in stamp order. It fails exactly when some push has two
     contents, names the first, and keeps the entries merged before it.
     */
    method MergeFrom(remote: Queue<V>) returns (r: Result<bool, Error>)
      modifies this
      ensures r.Ok? <==> forall id :: !Conflict(old(entries), remote, id)
      ensures r.Ok? ==> entries == Union(old(entries), remote) && r.value == (entries != old(entries))
      ensures r.Err? ==> FirstConflict(old(entries), remote, r.error.id) && entries == Union(old(entries), Before(remote, r.error.id))
    {
      var changed, rest := false, remote.Keys;
      ghost var q0, delta: Queue<V> := entries, map[];
      assert Union(q0, map[]) == q0;
      while rest != {}
        invariant rest <= remote.Keys && delta.Keys == remote.Keys - rest && forall id :: id in delta ==> delta[id] == remote[id]
        invariant forall id, x :: id in delta && x in rest ==> Less(id, x)
        invariant forall id :: id in delta ==> !Conflict(q0, remote, id)
        invariant entries == Union(q0, delta) && changed == (entries != q0)
        decreases rest
      {
        var id := Earliest(rest);
        ghost var before := entries;
        UnionStep(q0, delta, id, remote[id]);
        if id in entries {
          var merged := MergeInto(entries[id], remote[id], id);
          if merged.Err? {
            assert delta == Before(remote, id);
            assert FirstConflict(q0, remote, id);
            return Err(merged.error);
          }
          entries, changed := entries[id := merged.value.0], changed || merged.value.1;
        } else {
          entries, changed := entries[id := remote[id]], true;
        }
        ChangedAt(q0, before, id, entries);
        delta, rest := delta[id := remote[id]], rest - {id};
      }
      assert delta == remote;
      return Ok(changed);
    }
  }

  lemma UnionStep<V(!new)>(q0: Queue<V>, delta: Queue<V>, id: Stamp, entry: Entry<V>)
    requires id !in delta
    ensures var q := Union(q0, delta);
            && (id in q <==> id in q0) && (id in q0 ==> q[id] == q0[id])
            && Union(q0, delta[id := entry]) == q[id := if id in q0 then MergeEntry(q0[id], entry) else entry]
  {
  }

  lemma ChangedAt<V(!new)>(q0: Queue<V>, q: Queue<V>, id: Stamp, q': Queue<V>)
    requires (id in q <==> id in q0) && (id in q0 ==> q[id] == q0[id]) && id in q' && q' == q[id := q'[id]]
    ensures q' != q0 <==> q != q0 || id !in q0 || q'[id] != q0[id]
  {
    if q != q0 && id in q0 {
      assert q.Keys != q0.Keys || exists j :: j in q && j in q0 && q[j] != q0[j];
    }
  }
}
