/** The observed-remove set: a remove takes away exactly the adds it has seen. */
module OrSets {
  import opened Base
  import opened Stamps
  import opened ClockMaps

  /** The tags added for an element, and for each tag removed the latest stamp that removed it. */
  datatype Entry = Entry(adds: set<Stamp>, rems: Clocks<Stamp>)

  type Key = string

  type Elements = map<Key, Entry>

  datatype Op = Add(key: Key) | Remove(key: Key, observed: seq<Stamp>)

  datatype Event = Event(stamp: Stamp, op: Op)

  const NONE: Entry := Entry({}, map[])

  predicate Live(e: Entry) {
    exists tag :: tag in e.adds && tag !in e.rems
  }

  predicate Contains(d: Elements, key: Key) {
    key in d && Live(d[key])
  }

  function MergeEntry(a: Entry, b: Entry): Entry {
    Entry(a.adds + b.adds, Join(a.rems, b.rems))
  }

  /** The union of two states. */
  function Union(a: Elements, b: Elements): Elements {
    map k | k in a.Keys + b.Keys :: if k !in a then b[k] else if k !in b then a[k] else MergeEntry(a[k], b[k])
  }

  /** The state an operation contributes on its own. */
  function Delta(e: Event): Elements {
    map[e.op.key := if e.op.Add? then Entry({e.stamp}, map[]) else Entry({}, map tag | tag in e.op.observed :: e.stamp)]
  }

  // ---- the closed form ----------------------------------------------------------------------

  ghost function Adds(s: set<Event>, key: Key): set<Stamp> {
    set e | e in s && e.op == Add(key) :: e.stamp
  }

  ghost function Rems(s: set<Event>, key: Key): set<(Stamp, Stamp)> {
    set e, tag | e in s && e.op.Remove? && e.op.key == key && tag in e.op.observed :: (tag, e.stamp)
  }

  ghost predicate About(s: set<Event>, key: Key) {
    exists e :: e in s && e.op.key == key
  }

  ghost predicate Describes(d: Elements, s: set<Event>) {
    && (forall k :: k in d <==> About(s, k))
    && (forall k :: k in d ==> d[k].adds == Adds(s, k) && Tops(d[k].rems, Rems(s, k)))
  }

  lemma UnionAt(a: Elements, s: set<Event>, b: Elements, t: set<Event>, k: Key)
    requires Describes(a, s) && Describes(b, t)
    ensures k in Union(a, b) <==> About(s + t, k)
    ensures k in Union(a, b) ==> Union(a, b)[k].adds == Adds(s + t, k) && Tops(Union(a, b)[k].rems, Rems(s + t, k))
  {
    assert Adds(s + t, k) == Adds(s, k) + Adds(t, k);
    assert Rems(s + t, k) == Rems(s, k) + Rems(t, k);
    if About(s, k) {
      var e :| e in s && e.op.key == k;
      assert e in s + t;
    }
    if About(t, k) {
      var e :| e in t && e.op.key == k;
      assert e in s + t;
    }
    if k in a && k in b {
      JoinTops(a[k].rems, Rems(s, k), b[k].rems, Rems(t, k));
    } else if k in a {
      assert Adds(t, k) == {} && Rems(t, k) == {};
    } else if k in b {
      assert Adds(s, k) == {} && Rems(s, k) == {};
    }
  }

  lemma UnionDescribes(a: Elements, s: set<Event>, b: Elements, t: set<Event>)
    requires Describes(a, s) && Describes(b, t)
    ensures Describes(Union(a, b), s + t)
  {
    forall k
      ensures k in Union(a, b) <==> About(s + t, k)
      ensures k in Union(a, b) ==> Union(a, b)[k].adds == Adds(s + t, k) && Tops(Union(a, b)[k].rems, Rems(s + t, k))
    {
      UnionAt(a, s, b, t, k);
    }
  }

  lemma DeltaDescribes(e: Event)
    ensures Describes(Delta(e), {e})
  {
    var s := {e};
    assert e in s;
    var k := e.op.key;
    if e.op.Add? {
      assert Adds(s, k) == {e.stamp} && Rems(s, k) == {};
    } else {
      assert Adds(s, k) == {};
      forall tag | tag in Delta(e)[k].rems ensures (tag, e.stamp) in Rems(s, k) {
      }
    }
  }

  /** The delivered operations determine the state. */
  lemma Unique(a: Elements, b: Elements, s: set<Event>)
    requires Describes(a, s) && Describes(b, s)
    ensures a == b
  {
    forall k | k in a ensures k in b && a[k] == b[k] {
      assert About(s, k);
      TopsUnique(a[k].rems, b[k].rems, Rems(s, k));
    }
    forall k | k in b ensures k in a {
      assert About(s, k);
    }
  }

  // ---- histories ------------------------------------------------------------------------------

  ghost function State(h: History<Event>): Elements {
    match h
    case Fresh => map[]
    case Deliver(before, e) => Union(State(before), Delta(e))
    case Merge(left, right) => Union(State(left), State(right))
  }

  lemma {:induction false} StateDescribed(h: History<Event>)
    ensures Describes(State(h), Seen(h))
  {
    match h
    case Fresh =>
    case Deliver(before, e) =>
      StateDescribed(before);
      DeltaDescribes(e);
      UnionDescribes(State(before), Seen(before), Delta(e), {e});
    case Merge(left, right) =>
      StateDescribed(left);
      StateDescribed(right);
      UnionDescribes(State(left), Seen(left), State(right), Seen(right));
  }

  /** Replicas that have seen the same operations are in the same state. */
  lemma Convergence(h1: History<Event>, h2: History<Event>)
    requires Seen(h1) == Seen(h2)
    ensures State(h1) == State(h2)
  {
    StateDescribed(h1);
    StateDescribed(h2);
    Unique(State(h1), State(h2), Seen(h1));
  }

  /** Some delivered remove of the element observed this add. */
  ghost predicate Undone(s: set<Event>, add: Event) {
    exists f :: f in s && f.op.Remove? && f.op.key == add.op.key && add.stamp in f.op.observed
  }

  lemma UndoneIff(d: Elements, s: set<Event>, e: Event)
    requires Describes(d, s) && e in s
    ensures e.op.key in d && (e.stamp in d[e.op.key].rems <==> Undone(s, e))
  {
    var key := e.op.key;
    assert About(s, key);
    if Undone(s, e) {
      var f :| f in s && f.op.Remove? && f.op.key == key && e.stamp in f.op.observed;
      assert (e.stamp, f.stamp) in Rems(s, key);
    }
    if e.stamp in d[key].rems {
      var p := (e.stamp, d[key].rems[e.stamp]);
      assert p in Rems(s, key);
      var f :| f in s && f.op.Remove? && f.op.key == key && e.stamp in f.op.observed && f.stamp == p.1;
    }
  }

  /** An element is present iff some delivered add of it was observed by no delivered remove. */
  lemma PresentIff(h: History<Event>, key: Key)
    ensures Contains(State(h), key) <==> exists e :: e in Seen(h) && e.op == Add(key) && !Undone(Seen(h), e)
  {
    StateDescribed(h);
    var d, s := State(h), Seen(h);
    if Contains(d, key) {
      var tag :| tag in d[key].adds && tag !in d[key].rems;
      var e :| e in s && e.op == Add(key) && e.stamp == tag;
      UndoneIff(d, s, e);
    }
    if e :| e in s && e.op == Add(key) && !Undone(s, e) {
      UndoneIff(d, s, e);
      assert e.stamp in Adds(s, key);
    }
  }

  /** Removing everything observed takes the element away. */
  lemma RemovedGone(d: Elements, e: Event)
    requires e.op.Remove? && (e.op.key in d ==> forall tag :: tag in d[e.op.key].adds ==> tag in e.op.observed)
    ensures !Contains(Union(d, Delta(e)), e.op.key)
  {
  }

  // ---- the replica -----------------------------------------------------------------------------

  lemma AddedUnion(d: Elements, e: Event)
    requires e.op.Add?
    ensures var was := if e.op.key in d then d[e.op.key] else NONE;
            && Union(d, Delta(e)) == d[e.op.key := Entry(was.adds + {e.stamp}, was.rems)]
            && (Union(d, Delta(e)) != d <==> e.stamp !in was.adds)
  {
    var was := if e.op.key in d then d[e.op.key] else NONE;
    JoinNone(was.rems);
    JoinFromNone(map[]);
    assert {} + {e.stamp} == {e.stamp};
    assert e.stamp in was.adds ==> was.adds + {e.stamp} == was.adds;
    assert e.stamp in Union(d, Delta(e))[e.op.key].adds;
  }

  lemma JoinFromNone(c: Clocks<Stamp>)
    ensures Join(map[], c) == c
  {
  }

  lemma RemovedUnion(d: Elements, e: Event, rems: Clocks<Stamp>)
    requires e.op.Remove?
    requires var was := if e.op.key in d then d[e.op.key] else NONE; rems == Join(was.rems, map tag | tag in e.op.observed :: e.stamp)
    ensures var was := if e.op.key in d then d[e.op.key] else NONE;
            && Union(d, Delta(e)) == d[e.op.key := Entry(was.adds, rems)]
            && (Union(d, Delta(e)) != d <==> rems != was.rems || e.op.key !in d)
  {
    var was := if e.op.key in d then d[e.op.key] else NONE;
    JoinFromNone(map tag | tag in e.op.observed :: e.stamp);
    assert was.adds + {} == was.adds && {} + was.adds == was.adds;
  }

  lemma NothingObserved(rems: Clocks<Stamp>, observed: seq<Stamp>, stamp: Stamp)
    ensures observed == [] ==> Join(rems, map tag | tag in observed :: stamp) == rems
    ensures observed != [] && rems == map[] ==> Join(rems, map tag | tag in observed :: stamp) != rems
  {
    if observed != [] {
      assert observed[0] in Join(rems, map tag | tag in observed :: stamp);
    }
  }

  /** One more element of the remote state has been merged in. */
  lemma UnionStep(d0: Elements, delta: Elements, k: Key, entry: Entry)
    requires k !in delta
    ensures var d := Union(d0, delta);
            && (k in d <==> k in d0) && (k in d0 ==> d[k] == d0[k])
            && Union(d0, delta[k := entry]) == d[k := if k in d0 then MergeEntry(d0[k], entry) else entry]
  {
  }

  class OrSet {
    var entries: Elements

    constructor ()
      ensures entries == map[]
    {
      entries := map[];
    }

    /**
     Applies an operation: the result is the union with its contribution. The flag tells whether the
     state changed, except that a remove observing nothing of an unknown element records the element
     and yet reports no change.
     */
    method Apply(e: Event) returns (changed: bool)
      modifies this
      ensures entries == Union(old(entries), Delta(e))
      ensures changed <==> entries != old(entries) && !(e.op.Remove? && e.op.observed == [] && e.op.key !in old(entries))
    {
      var key := e.op.key;
      var entry := if key in entries then entries[key] else NONE;
      if e.op.Add? {
        AddedUnion(entries, e);
        changed := e.stamp !in entry.adds;
        entries := entries[key := Entry(entry.adds + {e.stamp}, entry.rems)];
      } else {
        var rems, moved := AdvanceAll(entry.rems, e.op.observed, e.stamp);
        RemovedUnion(entries, e, rems);
        NothingObserved(entry.rems, e.op.observed, e.stamp);
        changed := moved;
        entries := entries[key := Entry(entry.adds, rems)];
      }
    }

    /** Merges a remote state, element by element. */
    method MergeFrom(remote: Elements) returns (changed: bool)
      modifies this
      ensures entries == Union(old(entries), remote) && changed == (entries != old(entries))
    {
      changed := false;
      var rest: set<Key> := remote.Keys;
      ghost var d0, delta: Elements := entries, map[];
      assert Union(d0, map[]) == d0;
      while rest != {}
        invariant rest <= remote.Keys && delta.Keys == remote.Keys - rest && forall k :: k in delta ==> delta[k] == remote[k]
        invariant entries == Union(d0, delta) && changed == (entries != d0)
        decreases rest
      {
        var key :| key in rest;
        ghost var before := entries;
        UnionStep(d0, delta, key, remote[key]);
        if key in entries {
          var entry := entries[key];
          var rems, moved := JoinAll(entry.rems, remote[key].rems);
          var merged := Entry(entry.adds + remote[key].adds, rems);
          changed := changed || moved || merged.adds != entry.adds;
          entries := entries[key := merged];
        } else {
          entries, changed := entries[key := remote[key]], true;
        }
        ChangedAt(d0, before, key, entries);
        delta, rest := delta[key := remote[key]], rest - {key};
      }
      assert delta == remote;
    }

    /**
     Builds the operation that removes what this replica has seen of an element. Applied here with any stamp it takes
     the element away and leaves every other as it was; an add of the element that this replica has not seen, nor
     seen removed, is there again once it arrives.
     */
    method Remove(key: Key) returns (op: Op)
      ensures op.Remove? && op.key == key
      ensures forall stamp :: !Contains(Union(entries, Delta(Event(stamp, op))), key)
      ensures forall stamp, k :: k != key ==>
                Lookup(Union(entries, Delta(Event(stamp, op))), k) == Lookup(entries, k)
      ensures forall stamp, remote :: Unseen(entries, remote, key) ==> Contains(Union(Union(entries, Delta(Event(stamp, op))), remote), key)
    {
      var tags: seq<Stamp> := [];
      if key in entries {
        tags := Listed(entries[key].adds);
      }
      op := Op.Remove(key, tags);
      forall stamp ensures !Contains(Union(entries, Delta(Event(stamp, op))), key) {
        RemovedGone(entries, Event(stamp, op));
      }
      forall stamp, remote | Unseen(entries, remote, key) ensures Contains(Union(Union(entries, Delta(Event(stamp, op))), remote), key) {
        AddedLater(entries, Event(stamp, op), remote);
      }
    }
  }

  /** The tags in order. */
  method Listed(tags: set<Stamp>) returns (s: seq<Stamp>)
    ensures (forall tag :: tag in s <==> tag in tags) && forall i, j :: 0 <= i < j < |s| ==> Less(s[i], s[j])
  {
    s := [];
    var rest := tags;
    while rest != {}
      invariant rest <= tags && forall tag :: tag in s <==> tag in tags && tag !in rest
      invariant forall i, j :: 0 <= i < j < |s| ==> Less(s[i], s[j])
      invariant forall i, x :: 0 <= i < |s| && x in rest ==> Less(s[i], x)
      decreases rest
    {
      var tag := Earliest(rest);
      s, rest := s + [tag], rest - {tag};
    }
  }

  /** The remote state holds a standing add of the element that is news here. */
  ghost predicate Unseen(d: Elements, remote: Elements, key: Key) {
    key in remote && exists tag :: tag in remote[key].adds && tag !in remote[key].rems && Unknown(d, key, tag)
  }

  ghost predicate Unknown(d: Elements, key: Key, tag: Stamp) {
    key in d ==> tag !in d[key].adds && tag !in d[key].rems
  }

  lemma AddedLater(d: Elements, e: Event, remote: Elements)
    requires e.op.Remove? && Unseen(d, remote, e.op.key)
    requires forall tag :: tag in e.op.observed ==> e.op.key in d && tag in d[e.op.key].adds
    ensures Contains(Union(Union(d, Delta(e)), remote), e.op.key)
  {
    var key := e.op.key;
    var tag :| tag in remote[key].adds && tag !in remote[key].rems && Unknown(d, key, tag);
    var u := Union(Union(d, Delta(e)), remote);
    assert tag in u[key].adds && tag !in u[key].rems;
  }

  lemma ChangedAt(d0: Elements, d: Elements, k: Key, d': Elements)
    requires (k in d <==> k in d0) && (k in d0 ==> d[k] == d0[k]) && k in d' && d' == d[k := d'[k]]
    ensures d' != d0 <==> d != d0 || k !in d0 || d'[k] != d0[k]
  {
    if d != d0 && k in d0 {
      assert d.Keys != d0.Keys || exists j :: j in d && j in d0 && d[j] != d0[j];
    }
  }
}
