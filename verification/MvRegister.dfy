/** The multi-value register: every assignment not replaced by one that observed it stays visible. */
module MvRegisters {
  import opened Base
  import opened Stamps
  import opened ClockMaps

  /** Visible assignments, and for each replaced assignment the latest stamp that replaced it. */
  datatype Register<V> = Register(entries: map<Stamp, V>, removed: Clocks<Stamp>)

  /** An assignment: its stamp, its value and the assignments it replaces. */
  datatype Event<V> = Assign(stamp: Stamp, value: V, over: seq<Stamp>)

  datatype Error = AssignmentConflict(id: Stamp)

  function Empty<V>(): Register<V> {
    Register(map[], map[])
  }

  /** What is visible has not been replaced. */
  ghost predicate Tidy<V>(r: Register<V>) {
    r.entries.Keys !! r.removed.Keys
  }

  function Kept<V>(a: map<Stamp, V>, b: map<Stamp, V>, removed: Clocks<Stamp>): map<Stamp, V> {
    map id | id in a.Keys + b.Keys && id !in removed :: if id in a then a[id] else b[id]
  }

  /** The union of two states. */
  function Union<V>(a: Register<V>, b: Register<V>): Register<V> {
    var removed := Join(a.removed, b.removed);
    Register(Kept(a.entries, b.entries, removed), removed)
  }

  /** The state an assignment contributes on its own. */
  function Delta<V>(e: Event<V>): Register<V> {
    Register(if e.stamp in e.over then map[] else map[e.stamp := e.value], map id | id in e.over :: e.stamp)
  }

  /** An assignment both sides would keep, with different values. */
  predicate Conflict<V(==)>(a: Register<V>, b: Register<V>, id: Stamp) {
    && id in a.entries && id in b.entries && a.entries[id] != b.entries[id]
    && id !in Join(a.removed, b.removed)
  }

  /** The assignment's stamp is visible with another value. */
  predicate Contradicts<V(==)>(r: Register<V>, e: Event<V>) {
    e.stamp in r.entries && r.entries[e.stamp] != e.value
  }

  // ---- the closed form ---------------------------------------------------------------------

  ghost predicate Consistent<V(!new)>(s: set<Event<V>>) {
    forall e, f :: e in s && f in s && e.stamp == f.stamp ==> e == f
  }

  ghost predicate Replaced<V(!new)>(s: set<Event<V>>, id: Stamp) {
    exists e :: e in s && id in e.over
  }

  ghost function Removals<V(!new)>(s: set<Event<V>>): set<(Stamp, Stamp)> {
    set e, id | e in s && id in e.over :: (id, e.stamp)
  }

  /** A value is visible exactly when it was assigned and no delivered assignment replaces it. */
  ghost predicate Describes<V(!new)>(r: Register<V>, s: set<Event<V>>) {
    && Tops(r.removed, Removals(s))
    && (forall e :: e in s && !Replaced(s, e.stamp) ==> e.stamp in r.entries && r.entries[e.stamp] == e.value)
    && (forall id :: id in r.entries ==> !Replaced(s, id) && exists e :: e in s && e.stamp == id)
  }

  lemma RemovedIff<V(!new)>(r: Register<V>, s: set<Event<V>>, id: Stamp)
    requires Tops(r.removed, Removals(s))
    ensures id in r.removed <==> Replaced(s, id)
  {
    if Replaced(s, id) {
      var e :| e in s && id in e.over;
      assert (id, e.stamp) in Removals(s);
    }
  }

  lemma ReplacedUnion<V(!new)>(s: set<Event<V>>, t: set<Event<V>>, id: Stamp)
    ensures Replaced(s + t, id) <==> Replaced(s, id) || Replaced(t, id)
  {
    if Replaced(s, id) {
      var e :| e in s && id in e.over;
      assert e in s + t;
    }
    if Replaced(t, id) {
      var e :| e in t && id in e.over;
      assert e in s + t;
    }
  }

  lemma UnionDescribes<V(!new)>(a: Register<V>, s: set<Event<V>>, b: Register<V>, t: set<Event<V>>)
    requires Describes(a, s) && Describes(b, t) && Consistent(s + t)
    ensures Describes(Union(a, b), s + t)
  {
    var u := Union(a, b);
    JoinTops(a.removed, Removals(s), b.removed, Removals(t));
    assert Removals(s + t) == Removals(s) + Removals(t);
    forall e | e in s + t && !Replaced(s + t, e.stamp) ensures e.stamp in u.entries && u.entries[e.stamp] == e.value {
      ReplacedUnion(s, t, e.stamp);
      RemovedIff(u, s + t, e.stamp);
      UnionValue(a, s, b, t, e);
    }
    forall id | id in u.entries ensures !Replaced(s + t, id) && exists e :: e in s + t && e.stamp == id {
      RemovedIff(u, s + t, id);
      if id in a.entries {
        var e :| e in s && e.stamp == id;
        assert e in s + t;
      } else {
        var e :| e in t && e.stamp == id;
        assert e in s + t;
      }
    }
  }

  lemma UnionValue<V(!new)>(a: Register<V>, s: set<Event<V>>, b: Register<V>, t: set<Event<V>>, e: Event<V>)
    requires Describes(a, s) && Describes(b, t) && Consistent(s + t)
    requires e in s + t && !Replaced(s, e.stamp) && !Replaced(t, e.stamp)
    ensures e.stamp in a.entries.Keys + b.entries.Keys
    ensures e.stamp in a.entries ==> a.entries[e.stamp] == e.value
    ensures e.stamp in b.entries ==> b.entries[e.stamp] == e.value
  {
    if e.stamp in a.entries {
      var f :| f in s && f.stamp == e.stamp;
      assert f in s + t;
    }
    if e.stamp in b.entries {
      var f :| f in t && f.stamp == e.stamp;
      assert f in s + t;
    }
  }

  lemma DeltaDescribes<V(!new)>(e: Event<V>)
    ensures Describes(Delta(e), {e})
  {
    var s := {e};
    forall id ensures Replaced(s, id) <==> id in e.over {
      if id in e.over {
        assert e in s;
      }
    }
    assert e in s;
  }

  /** The delivered assignments determine the state. */
  lemma Unique<V(!new)>(a: Register<V>, b: Register<V>, s: set<Event<V>>)
    requires Describes(a, s) && Describes(b, s) && Consistent(s)
    ensures a == b
  {
    TopsUnique(a.removed, b.removed, Removals(s));
    SameEntries(a, b, s);
    SameEntries(b, a, s);
    assert a.entries == b.entries;
  }

  lemma SameEntries<V(!new)>(a: Register<V>, b: Register<V>, s: set<Event<V>>)
    requires Describes(a, s) && Describes(b, s)
    ensures forall id :: id in a.entries ==> id in b.entries && a.entries[id] == b.entries[id]
  {
    forall id | id in a.entries ensures id in b.entries && a.entries[id] == b.entries[id] {
      var e :| e in s && e.stamp == id;
    }
  }

  // ---- histories -----------------------------------------------------------------------------

  ghost function State<V(!new)>(h: History<Event<V>>): Register<V> {
    match h
    case Fresh => Empty()
    case Deliver(before, e) => Union(State(before), Delta(e))
    case Merge(left, right) => Union(State(left), State(right))
  }

  lemma {:induction false} StateDescribed<V(!new)>(h: History<Event<V>>)
    requires Consistent(Seen(h))
    ensures Describes(State(h), Seen(h)) && Tidy(State(h))
    ensures h.Deliver? ==> !Contradicts(State(h.before), h.event)
    ensures h.Merge? ==> forall id :: !Conflict(State(h.left), State(h.right), id)
  {
    match h
    case Fresh =>
    case Deliver(before, e) =>
      StateDescribed(before);
      DeltaDescribes(e);
      UnionDescribes(State(before), Seen(before), Delta(e), {e});
      assert e in Seen(h);
    case Merge(left, right) =>
      StateDescribed(left);
      StateDescribed(right);
      UnionDescribes(State(left), Seen(left), State(right), Seen(right));
      forall id ensures !Conflict(State(left), State(right), id) {
        NoConflict(State(left), Seen(left), State(right), Seen(right), id);
      }
  }

  /** Replicas that have seen the same assignments are in the same state. */
  lemma Convergence<V(!new)>(h1: History<Event<V>>, h2: History<Event<V>>)
    requires Seen(h1) == Seen(h2) && Consistent(Seen(h1))
    ensures State(h1) == State(h2)
  {
    StateDescribed(h1);
    StateDescribed(h2);
    Unique(State(h1), State(h2), Seen(h1));
  }

  /** A value is visible iff it was assigned and no delivered assignment replaces it. */
  lemma VisibleIff<V(!new)>(h: History<Event<V>>, id: Stamp, value: V)
    requires Consistent(Seen(h))
    ensures id in State(h).entries && State(h).entries[id] == value <==>
            (exists e :: e in Seen(h) && e.stamp == id && e.value == value) && !Replaced(Seen(h), id)
  {
    StateDescribed(h);
    if id in State(h).entries {
      var e :| e in Seen(h) && e.stamp == id;
      assert State(h).entries[id] == e.value;
    }
  }

  /** Assigning over everything visible leaves the new value alone in view. */
  lemma AssignedAlone<V(!new)>(r: Register<V>, e: Event<V>)
    requires Tidy(r) && e.stamp !in r.entries && e.stamp !in r.removed && (forall id :: id in e.over <==> id in r.entries)
    ensures Union(r, Delta(e)).entries == map[e.stamp := e.value]
  {
  }

  /** Operations and merges between replicas with consistent stamps never conflict. */
  lemma NoConflict<V(!new)>(a: Register<V>, s: set<Event<V>>, b: Register<V>, t: set<Event<V>>, id: Stamp)
    requires Describes(a, s) && Describes(b, t) && Consistent(s + t)
    ensures !Conflict(a, b, id)
  {
    if id in a.entries && id in b.entries {
      var e :| e in s && e.stamp == id;
      var f :| f in t && f.stamp == id;
      assert e in s + t && f in s + t;
    }
  }

  // ---- the replica ------------------------------------------------------------------------------

  /** Removes assignments from view. */
  method Purge<V>(entries: map<Stamp, V>, removed: Clocks<Stamp>) returns (r: map<Stamp, V>, changed: bool)
    ensures r == entries - removed.Keys && changed == (r != entries)
  {
    r, changed := entries, false;
    var rest := removed.Keys;
    while rest != {}
      invariant rest <= removed.Keys && r == entries - (removed.Keys - rest)
      invariant changed <==> exists id :: id in entries && id in removed.Keys - rest
      decreases rest
    {
      var id :| id in rest;
      changed := changed || id in r;
      r := r - {id};
      rest := rest - {id};
    }
    assert removed.Keys - rest == removed.Keys;
    if changed {
      var id :| id in entries && id in removed.Keys;
      assert id !in r;
    }
  }

  // ---- a merge that fails --------------------------------------------------------------------------

  /** The remote assignments before a stamp that no clock has removed. */
  function Before<V>(remote: map<Stamp, V>, removed: Clocks<Stamp>, stop: Stamp): map<Stamp, V> {
    map id | id in remote && Less(id, stop) && id !in removed :: remote[id]
  }

  /**
   What a merge leaves behind when it stops at a conflict: all remote clocks, the remote assignments
   before the conflict, and nothing yet taken out of view.
   */
  function Stopped<V>(a: Register<V>, b: Register<V>, stop: Stamp): Register<V> {
    var removed := Join(a.removed, b.removed);
    Register(a.entries + Before(b.entries, removed, stop), removed)
  }

  ghost predicate FirstConflict<V(!new)>(a: Register<V>, b: Register<V>, stop: Stamp) {
    Conflict(a, b, stop) && forall id :: Conflict(a, b, id) ==> Leq(stop, id)
  }

  /** A failed merge changes nothing exactly when neither a remote clock nor an earlier remote assignment was news. */
  lemma StoppedSame<V(!new)>(a: Register<V>, b: Register<V>, stop: Stamp)
    requires FirstConflict(a, b, stop)
    ensures Stopped(a, b, stop) == a <==>
            && (forall id :: id in b.removed ==> id in a.removed && !Less(a.removed[id], b.removed[id]))
            && (forall id :: id in b.entries && Less(id, stop) && id !in a.removed ==> id in a.entries)
  {
    var removed := Join(a.removed, b.removed);
    if Stopped(a, b, stop) == a {
      forall id | id in b.removed ensures id in a.removed && !Less(a.removed[id], b.removed[id]) {
        assert id in removed;
      }
      forall id | id in b.entries && Less(id, stop) && id !in a.removed ensures id in a.entries {
        assert id in Stopped(a, b, stop).entries;
      }
    } else if (forall id :: id in b.removed ==> id in a.removed && !Less(a.removed[id], b.removed[id]))
           && (forall id :: id in b.entries && Less(id, stop) && id !in a.removed ==> id in a.entries) {
      assert removed == a.removed;
      forall id | id in Before(b.entries, removed, stop) ensures id in a.entries && a.entries[id] == b.entries[id] {
        assert !Conflict(a, b, id);
      }
      assert false;
    }
  }

  /** After a failed merge a replaced value stays visible exactly when a remote clock removes a local one. */
  lemma StoppedTidy<V(!new)>(a: Register<V>, b: Register<V>, stop: Stamp)
    requires Tidy(a)
    ensures Tidy(Stopped(a, b, stop)) <==> a.entries.Keys !! b.removed.Keys
  {
    var s := Stopped(a, b, stop);
    if id :| id in a.entries && id in b.removed {
      assert id in s.entries && id in s.removed;
    }
  }

  /** Such a merge: the first value was replaced remotely, the second has two values. */
  lemma MergeStops<V(!new)>(x: V, y: V, z: V)
    requires y != z
    ensures var s1, s2, s3 := Stamp(1, 0, 1, 1), Stamp(2, 0, 1, 2), Stamp(3, 0, 2, 1);
            var a, b := Register(map[s1 := x, s2 := y], map[]), Register(map[s2 := z], map[s1 := s3]);
            && Tidy(a) && Tidy(b) && FirstConflict(a, b, s2) && Stopped(a, b, s2) != a && !Tidy(Stopped(a, b, s2))
  {
    var s1, s2, s3 := Stamp(1, 0, 1, 1), Stamp(2, 0, 1, 2), Stamp(3, 0, 2, 1);
    var a, b := Register(map[s1 := x, s2 := y], map[]), Register(map[s2 := z], map[s1 := s3]);
    assert s1 in b.removed && s1 !in a.removed;
    StoppedSame(a, b, s2);
    StoppedTidy(a, b, s2);
    assert s1 in a.entries.Keys && s1 in b.removed.Keys;
  }

  /** Both hold the assignment, still standing, with different values. */
  predicate Clash<V(==)>(entries: map<Stamp, V>, remote: map<Stamp, V>, removed: Clocks<Stamp>, id: Stamp)
    requires id in remote
  {
    id in entries && id !in removed && entries[id] != remote[id]
  }

  /** Takes over remote assignments that are still standing, in stamp order, until one contradicts a local one. */
  method Adopt<V(==)>(entries: map<Stamp, V>, remote: map<Stamp, V>, removed: Clocks<Stamp>)
    returns (r: map<Stamp, V>, changed: bool, conflict: Option<Stamp>)
    ensures conflict.None? <==> forall id :: id in remote ==> !Clash(entries, remote, removed, id)
    ensures conflict.Some? ==> conflict.value in remote && Clash(entries, remote, removed, conflict.value)
    ensures conflict.Some? ==> forall id :: id in remote && Clash(entries, remote, removed, id) ==> Leq(conflict.value, id)
    ensures conflict.None? ==> r == entries + (remote - removed.Keys) && changed == (r != entries)
    ensures conflict.Some? ==> r == entries + Before(remote, removed, conflict.value)
  {
    r, changed := entries, false;
    var rest := remote.Keys;
    while rest != {}
      invariant rest <= remote.Keys && forall id, x :: id in remote && id !in rest && x in rest ==> Less(id, x)
      invariant forall id :: id in remote && id !in rest ==> !Clash(entries, remote, removed, id)
      invariant forall id :: id in r <==> id in entries || (id in remote && id !in rest && id !in removed)
      invariant forall id :: id in r ==> r[id] == if id in entries then entries[id] else remote[id]
      invariant changed <==> r != entries
      decreases rest
    {
      var id := Earliest(rest);
      if id !in removed {
        if id in r {
          if r[id] != remote[id] {
            return r, changed, Some(id);
          }
        } else {
          r, changed := r[id := remote[id]], true;
        }
      }
      rest := rest - {id};
    }
    return r, changed, None;
  }

  /** The visible assignments after one more. */
  function Assigned<V>(entries: map<Stamp, V>, e: Event<V>, clocks: Clocks<Stamp>): map<Stamp, V> {
    var kept := entries - (set id | id in e.over);
    if e.stamp in clocks then kept else kept[e.stamp := e.value]
  }

  /** The register after an assignment: the assignments it replaces leave the view, and it enters unless replaced itself. */
  function Applied<V>(r: Register<V>, e: Event<V>): Register<V> {
    var clocks := Join(r.removed, Delta(e).removed);
    Register(Assigned(r.entries, e, clocks), clocks)
  }

  /** On a tidy register an assignment is the union with what it contributes, and the result is tidy. */
  lemma AppliedUnion<V(!new)>(r: Register<V>, e: Event<V>)
    requires Tidy(r) && !Contradicts(r, e)
    ensures Applied(r, e) == Union(r, Delta(e)) && Tidy(Applied(r, e))
  {
  }

  /** A value visible in the remote register that is unknown here. */
  predicate Concurrent<V>(r: Register<V>, remote: Register<V>, id: Stamp) {
    id in remote.entries && id !in remote.removed && id !in r.entries && id !in r.removed
  }

  /** An assignment tidies what a failed merge left exactly when it replaces every replaced value still visible. */
  lemma AppliedTidy<V(!new)>(r: Register<V>, e: Event<V>)
    requires !Contradicts(r, e)
    ensures Tidy(Applied(r, e)) <==> forall id :: id in r.entries && id in r.removed ==> id in e.over
  {
    var clocks := Join(r.removed, Delta(e).removed);
    if id :| id in r.entries && id in r.removed && id !in e.over {
      assert id in Applied(r, e).entries && id in clocks;
    }
  }

  lemma AppliedChange<V(!new)>(r: Register<V>, e: Event<V>, clocks: Clocks<Stamp>)
    requires !Contradicts(r, e) && clocks == Join(r.removed, Delta(e).removed)
    ensures var kept := r.entries - (set id | id in e.over);
            (clocks != r.removed || kept != r.entries || (e.stamp !in clocks && e.stamp !in kept)) <==>
            Register(Assigned(r.entries, e, clocks), clocks) != r
  {
    var kept := r.entries - (set id | id in e.over);
    if kept != r.entries {
      assert kept.Keys <= r.entries.Keys;
      var id :| id in r.entries && id !in kept;
      assert id in clocks;
      assert id !in Assigned(r.entries, e, clocks);
    }
  }

  lemma MergedUnion<V(!new)>(a: Register<V>, b: Register<V>, entries: map<Stamp, V>)
    requires forall id :: !Conflict(a, b, id)
    requires var removed := Join(a.removed, b.removed); entries == a.entries + (b.entries - removed.Keys)
    ensures var removed := Join(a.removed, b.removed);
            && Union(a, b) == Register(entries - removed.Keys, removed) && Tidy(Union(a, b))
            && (removed != a.removed || entries != a.entries || entries - removed.Keys != entries <==> Union(a, b) != a)
  {
    var removed := Join(a.removed, b.removed);
    forall id | id in a.entries ensures id in entries && entries[id] == a.entries[id] {
      assert !Conflict(a, b, id);
    }
    assert Kept(a.entries, b.entries, removed) == entries - removed.Keys;
    if entries != a.entries {
      assert a.entries.Keys <= entries.Keys;
      var id :| id in entries && id !in a.entries;
      assert id in entries - removed.Keys;
    }
    if entries - removed.Keys != entries {
      var id :| id in entries && id in removed;
      assert id in a.entries && id !in entries - removed.Keys;
    }
  }

  class Replica<V(==, !new)> {
    var entries: map<Stamp, V>
    var removed: Clocks<Stamp>

    ghost function Value(): Register<V>
      reads this
    {
      Register(entries, removed)
    }

    constructor ()
      ensures Value() == Empty()
    {
      entries, removed := map[], map[];
    }

    /**
     Builds an assignment over everything visible here. Applied with a new stamp it leaves its value alone in view,
     and a value this replica has not seen stays in view beside it when it arrives.
     */
    method Assign() returns (over: seq<Stamp>)
      ensures forall stamp, value :: Tidy(Value()) && stamp !in entries && stamp !in removed ==>
                Applied(Value(), Event.Assign(stamp, value, over)).entries == map[stamp := value]
      ensures forall stamp, value, remote, id :: Concurrent(Value(), remote, id) ==>
                id in Union(Applied(Value(), Event.Assign(stamp, value, over)), remote).entries
    {
      over := [];
      var rest := entries.Keys;
      while rest != {}
        invariant rest <= entries.Keys && forall id :: id in over <==> id in entries && id !in rest
        decreases rest
      {
        var id := Earliest(rest);
        over, rest := over + [id], rest - {id};
      }
      forall stamp, value | Tidy(Value()) && stamp !in entries && stamp !in removed
        ensures Applied(Value(), Event.Assign(stamp, value, over)).entries == map[stamp := value]
      {
        AppliedUnion(Value(), Event.Assign(stamp, value, over));
        AssignedAlone(Value(), Event.Assign(stamp, value, over));
      }
    }

    /**
     Applies an assignment. It fails, changing nothing, when its stamp is visible with another value;
     otherwise, on a tidy register, it equals merging what the assignment contributes.
     */
    method Apply(e: Event<V>) returns (r: Result<bool, Error>)
      modifies this
      ensures r.Err? <==> Contradicts(old(Value()), e)
      ensures r.Err? ==> r.error == AssignmentConflict(e.stamp) && unchanged(this)
      ensures r.Ok? ==> Value() == Applied(old(Value()), e) && r.value == (Value() != old(Value()))
      ensures r.Ok? && Tidy(old(Value())) ==> Value() == Union(old(Value()), Delta(e)) && Tidy(Value())
    {
      if e.stamp in entries && entries[e.stamp] != e.value {
        return Err(AssignmentConflict(e.stamp));
      }
      var clocks, moved := AdvanceAll(removed, e.over, e.stamp);
      var kept, purged := Purge(entries, map id | id in e.over :: e.stamp);
      var changed := moved || purged;
      if e.stamp !in clocks {
        changed := changed || e.stamp !in kept;
        kept := kept[e.stamp := e.value];
      }
      if Tidy(Value()) {
        AppliedUnion(Value(), e);
      }
      AppliedChange(Value(), e, clocks);
      entries, removed := kept, clocks;
      return Ok(changed);
    }

    /**
     Merges a remote state. It fails exactly when some assignment that stays visible has different
     values on the two sides, names the first, and keeps what was merged before it.
     */
    method MergeFrom(remote: Register<V>) returns (r: Result<bool, Error>)
      modifies this
      ensures r.Ok? <==> forall id :: !Conflict(old(Value()), remote, id)
      ensures r.Ok? ==> Value() == Union(old(Value()), remote) && r.value == (Value() != old(Value())) && Tidy(Value())
      ensures r.Err? ==> FirstConflict(old(Value()), remote, r.error.id) && Value() == Stopped(old(Value()), remote, r.error.id)
    {
      ghost var before := Value();
      var moved, adopted, purged, conflict;
      removed, moved := JoinAll(removed, remote.removed);
      entries, adopted, conflict := Adopt(entries, remote.entries, removed);
      if conflict.Some? {
        assert FirstConflict(before, remote, conflict.value);
        return Err(AssignmentConflict(conflict.value));
      }
      assert forall id :: !Conflict(before, remote, id);
      MergedUnion(before, remote, entries);
      entries, purged := Purge(entries, removed);
      return Ok(moved || adopted || purged);
    }
  }
}
