/** Any number of devices, any wall clocks, any delivery pattern. */
module ClockNetworks {
  import opened Base
  import opened Stamps
  import opened Clocks

  datatype Step =
    | Create(peer: nat, wall: nat)
    | Open(peer: nat, wall: nat)
    | MintAt(peer: nat, reading: Option<nat>)
    | Deliver(peer: nat, stamp: Stamp, reading: Option<nat>)

  type Net = map<nat, Clock>

  /** A step that fails changes no clock. */
  function Next(net: Net, step: Step): Net {
    match step
    case Create(p, wall) => if p in net then net else net[p := Clock(2, wall, 0)]
    case Open(p, wall) => if p in net then net else net[p := Clock(1, wall, 0)]
    case MintAt(p, reading) =>
      if p in net && Mint(net[p], p, reading).Ok? then net[p := Mint(net[p], p, reading).value.clock] else net
    case Deliver(p, s, reading) =>
      if p in net && Unobservable(p, s, reading).None? then net[p := Observed(net[p], p, s, reading.value)] else net
  }

  /** The stamp a step mints, if it does. Creating a workspace mints the first stamp of its device. */
  function Stamped(net: Net, step: Step): Option<Stamp> {
    match step
    case Create(p, wall) => if p in net then None else Some(Stamp(wall, 0, p, 1))
    case Open(_, _) => None
    case MintAt(p, reading) =>
      if p in net && Mint(net[p], p, reading).Ok? then Some(Mint(net[p], p, reading).value.stamp) else None
    case Deliver(_, _, _) => None
  }

  /** The clocks after the first `n` steps of a run. */
  function After(steps: seq<Step>, n: nat): Net
    requires n <= |steps|
  {
    if n == 0 then map[] else Next(After(steps, n - 1), steps[n - 1])
  }

  function StampAt(steps: seq<Step>, i: nat): Option<Stamp>
    requires i < |steps|
  {
    Stamped(After(steps, i), steps[i])
  }

  /** The device of the step runs once it has been taken. */
  predicate Takes(steps: seq<Step>, i: nat) {
    i < |steps| && steps[i].peer in After(steps, i + 1)
  }

  /** The step brings the stamp minted at `i` to a running device whose wall clock can be read. */
  predicate Brings(steps: seq<Step>, i: nat, j: nat) {
    && i < j < |steps| && StampAt(steps, i).Some? && steps[j].Deliver? && steps[j].stamp == StampAt(steps, i).value
    && steps[j].peer in After(steps, j) && steps[j].reading.Some?
  }

  /** Step `j` follows step `i` on one device, or delivers the stamp minted at `i`. */
  predicate Link(steps: seq<Step>, i: nat, j: nat) {
    i < j < |steps| && Takes(steps, i) && Takes(steps, j) && (steps[i].peer == steps[j].peer || Brings(steps, i, j))
  }

  /** A path of links: its first step happened before its last. */
  ghost predicate Path(steps: seq<Step>, path: seq<nat>) {
    && path != [] && (forall k :: 0 <= k < |path| ==> path[k] < |steps|)
    && forall k :: 0 <= k < |path| - 1 ==> Link(steps, path[k], path[k + 1])
  }

  // ---- clocks only move forward -----------------------------------------------------

  lemma {:induction false} Monotone(steps: seq<Step>, i: nat, j: nat, p: nat, t: Stamp)
    requires i <= j <= |steps| && p in After(steps, i)
    ensures p in After(steps, j) && After(steps, i)[p].next <= After(steps, j)[p].next
    ensures NotAhead(t, After(steps, i)[p]) ==> NotAhead(t, After(steps, j)[p])
    decreases j - i
  {
    if i < j {
      Monotone(steps, i, j - 1, p, t);
    }
  }

  lemma StampedFacts(steps: seq<Step>, i: nat)
    requires i < |steps| && StampAt(steps, i).Some?
    ensures var s, p := StampAt(steps, i).value, steps[i].peer;
            && s.peer == p && p in After(steps, i + 1) && s.sequence < After(steps, i + 1)[p].next
            && s.physical == After(steps, i + 1)[p].physical && s.logical == After(steps, i + 1)[p].logical
            && (p in After(steps, i) ==> s.sequence == After(steps, i)[p].next && !NotAhead(s, After(steps, i)[p]))
            && (p in After(steps, i) <==> steps[i].MintAt?)
  {
  }

  /** Every device that is asked for a stamp mints one, unless its clock is exhausted; a new workspace mints its first. */
  lemma Mints(steps: seq<Step>, i: nat)
    requires i < |steps|
    ensures steps[i].Create? && steps[i].peer !in After(steps, i) ==> StampAt(steps, i) == Some(Stamp(steps[i].wall, 0, steps[i].peer, 1))
    ensures steps[i].MintAt? && steps[i].peer in After(steps, i) && steps[i].reading.Some? ==>
              var c := After(steps, i)[steps[i].peer];
              StampAt(steps, i).Some? <==> c.next != U64_MAX && (steps[i].reading.value > c.physical || c.logical < U32_MAX)
  {
  }

  lemma {:induction false} NextPositive(steps: seq<Step>, n: nat, p: nat)
    requires n <= |steps| && p in After(steps, n)
    ensures After(steps, n)[p].next >= 1
  {
    if n > 0 && p in After(steps, n - 1) {
      NextPositive(steps, n - 1, p);
    }
  }

  /**
   Every stamp minted in a run is accepted wherever it is brought: the clock that takes it in is then behind
   neither it nor the wall reading.
   */
  lemma Accepted(steps: seq<Step>, i: nat, j: nat)
    requires Brings(steps, i, j)
    ensures var s, c := StampAt(steps, i).value, After(steps, j + 1)[steps[j].peer];
            && (s.physical < c.physical || (s.physical == c.physical && s.logical <= c.logical))
            && steps[j].reading.value <= c.physical
  {
    if steps[i].peer in After(steps, i) {
      NextPositive(steps, i, steps[i].peer);
    }
  }

  /** And every stamp minted there afterwards is later. */
  lemma AcceptedBefore(steps: seq<Step>, i: nat, j: nat, k: nat)
    requires Brings(steps, i, j) && j < k < |steps| && steps[k].peer == steps[j].peer && StampAt(steps, k).Some?
    ensures Less(StampAt(steps, i).value, StampAt(steps, k).value)
  {
    Accepted(steps, i, j);
    Monotone(steps, j + 1, k, steps[j].peer, StampAt(steps, i).value);
    StampedFacts(steps, k);
  }

  /** No two stamps minted in a run share an identity. */
  lemma UniqueIds(steps: seq<Step>, i: nat, j: nat)
    requires i < j < |steps| && StampAt(steps, i).Some? && StampAt(steps, j).Some?
    ensures var s, t := StampAt(steps, i).value, StampAt(steps, j).value;
            s.peer == t.peer ==> s.sequence < t.sequence
  {
    StampedFacts(steps, i);
    StampedFacts(steps, j);
    Monotone(steps, i + 1, j, steps[i].peer, StampAt(steps, i).value);
  }

  /** Along a path every clock reached is past the first stamp. */
  lemma {:induction false} Carried(steps: seq<Step>, path: seq<nat>, s: Stamp)
    requires Path(steps, path) && Takes(steps, path[0]) && NotAhead(s, After(steps, path[0] + 1)[steps[path[0]].peer])
    ensures Takes(steps, path[|path| - 1])
    ensures NotAhead(s, After(steps, path[|path| - 1] + 1)[steps[path[|path| - 1]].peer])
    decreases |path|
  {
    if |path| > 1 {
      assert Link(steps, path[0], path[1]);
      CarriedOnce(steps, path[0], path[1], s);
      forall k | 0 <= k < |path[1..]| - 1 ensures Link(steps, path[1..][k], path[1..][k + 1]) {
        assert Link(steps, path[k + 1], path[k + 2]);
      }
      Carried(steps, path[1..], s);
    }
  }

  lemma CarriedOnce(steps: seq<Step>, i: nat, j: nat, s: Stamp)
    requires Link(steps, i, j) && NotAhead(s, After(steps, i + 1)[steps[i].peer])
    ensures NotAhead(s, After(steps, j + 1)[steps[j].peer])
  {
    if steps[i].peer == steps[j].peer {
      Monotone(steps, i + 1, j + 1, steps[i].peer, s);
    } else {
      StampedFacts(steps, i);
      Accepted(steps, i, j);
    }
  }

  /** Happened-before implies stamp order. */
  lemma CausalOrder(steps: seq<Step>, path: seq<nat>)
    requires Path(steps, path) && |path| > 1
    requires StampAt(steps, path[0]).Some? && StampAt(steps, path[|path| - 1]).Some?
    ensures Less(StampAt(steps, path[0]).value, StampAt(steps, path[|path| - 1]).value)
  {
    var s, i, j := StampAt(steps, path[0]).value, path[|path| - 2], path[|path| - 1];
    assert Link(steps, path[0], path[1]);
    StampedFacts(steps, path[0]);
    var front := path[..|path| - 1];
    forall k | 0 <= k < |front| - 1 ensures Link(steps, front[k], front[k + 1]) {
      assert Link(steps, path[k], path[k + 1]);
    }
    Carried(steps, front, s);
    assert Link(steps, path[|path| - 2], path[|path| - 2 + 1]);
    Monotone(steps, i + 1, j, steps[i].peer, s);
    StampedFacts(steps, j);
  }

  // ---- where physical times come from ----------------------------------------------------------------

  /** The wall reading a step has used. */
  function Used(steps: seq<Step>, j: nat): Option<nat>
    requires j < |steps|
  {
    match steps[j]
    case Create(p, wall) => if p in After(steps, j) then None else Some(wall)
    case Open(p, wall) => if p in After(steps, j) then None else Some(wall)
    case MintAt(_, reading) => if StampAt(steps, j).Some? then reading else None
    case Deliver(p, _, reading) => if p in After(steps, j) then reading else None
  }

  /** Only stamps minted in the run are delivered. */
  ghost predicate Honest(steps: seq<Step>) {
    forall j :: 0 <= j < |steps| && steps[j].Deliver? ==>
      exists i :: 0 <= i < j && StampAt(steps, i) == Some(steps[j].stamp)
  }

  lemma UsedBehind(steps: seq<Step>, j: nat)
    requires Honest(steps) && j < |steps| && Used(steps, j).Some?
    ensures Takes(steps, j) && Used(steps, j).value <= After(steps, j + 1)[steps[j].peer].physical
  {
    if steps[j].Deliver? {
      var i :| 0 <= i < j && StampAt(steps, i) == Some(steps[j].stamp);
      Accepted(steps, i, j);
    }
  }

  /** No wall reading in the causal past of a stamp is greater than its physical time. */
  lemma ReadingsBehind(steps: seq<Step>, path: seq<nat>)
    requires Honest(steps) && Path(steps, path) && Used(steps, path[0]).Some? && StampAt(steps, path[|path| - 1]).Some?
    ensures Used(steps, path[0]).value <= StampAt(steps, path[|path| - 1]).value.physical
  {
    var w := Stamp(Used(steps, path[0]).value, 0, 0, 0);
    UsedBehind(steps, path[0]);
    Carried(steps, path, w);
    StampedFacts(steps, path[|path| - 1]);
  }

  lemma PathMore(steps: seq<Step>, path: seq<nat>, j: nat)
    requires Path(steps, path) && Link(steps, path[|path| - 1], j)
    ensures Path(steps, path + [j])
  {
    var more := path + [j];
    forall k | 0 <= k < |more| - 1 ensures Link(steps, more[k], more[k + 1]) {
      if k < |path| - 1 {
        assert Link(steps, path[k], path[k + 1]);
      }
    }
  }

  /** The path comes from a step that read this time and ends on the device, at a step before `n`. */
  ghost predicate Sources(steps: seq<Step>, path: seq<nat>, n: nat, p: nat, physical: nat) {
    && Path(steps, path) && Used(steps, path[0]) == Some(physical)
    && var k := path[|path| - 1]; k < n && steps[k].peer == p && Takes(steps, k)
  }

  lemma SourceNext(steps: seq<Step>, path: seq<nat>, n: nat, p: nat, physical: nat) returns (more: seq<nat>)
    requires Sources(steps, path, n, p, physical) && n < |steps| && steps[n].peer == p && Takes(steps, n)
    ensures Sources(steps, more, n + 1, p, physical) && more[|more| - 1] == n
  {
    PathMore(steps, path, n);
    more := path + [n];
  }

  /** The physical time of a clock was read off a wall clock in its causal past. */
  lemma {:induction false} Source(steps: seq<Step>, n: nat, p: nat) returns (path: seq<nat>)
    requires Honest(steps) && n <= |steps| && p in After(steps, n)
    ensures Sources(steps, path, n, p, After(steps, n)[p].physical)
    decreases n, 1
  {
    var j := n - 1;
    var now := After(steps, n)[p].physical;
    if steps[j].peer == p && Used(steps, j) == Some(now) {
      path := [j];
    } else if p in After(steps, j) && After(steps, j)[p].physical == now {
      path := Source(steps, j, p);
      if steps[j].peer == p {
        path := SourceNext(steps, path, j, p, now);
      }
    } else {
      path := SourceBrought(steps, j, p);
    }
  }

  lemma BroughtTime(steps: seq<Step>, j: nat, p: nat)
    requires j < |steps| && p in After(steps, j + 1) && (steps[j].peer == p ==> Used(steps, j) != Some(After(steps, j + 1)[p].physical))
    requires p in After(steps, j) ==> After(steps, j)[p].physical != After(steps, j + 1)[p].physical
    ensures steps[j].Deliver? && steps[j].peer == p && p in After(steps, j) && After(steps, j + 1)[p].physical == steps[j].stamp.physical
  {
  }

  /** The clock took its time over from a stamp. */
  lemma {:induction false} SourceBrought(steps: seq<Step>, j: nat, p: nat) returns (path: seq<nat>)
    requires Honest(steps) && j < |steps| && p in After(steps, j + 1)
    requires steps[j].peer == p ==> Used(steps, j) != Some(After(steps, j + 1)[p].physical)
    requires p in After(steps, j) ==> After(steps, j)[p].physical != After(steps, j + 1)[p].physical
    ensures Sources(steps, path, j + 1, p, After(steps, j + 1)[p].physical)
    decreases j + 1, 0
  {
    BroughtTime(steps, j, p);
    var i :| 0 <= i < j && StampAt(steps, i) == Some(steps[j].stamp);
    path := StampSource(steps, i);
    PathMore(steps, path, j);
    path := path + [j];
  }

  lemma {:induction false} StampSource(steps: seq<Step>, i: nat) returns (path: seq<nat>)
    requires Honest(steps) && i < |steps| && StampAt(steps, i).Some?
    ensures Path(steps, path) && path[|path| - 1] == i && Takes(steps, i) && Used(steps, path[0]) == Some(StampAt(steps, i).value.physical)
    decreases i + 1, 2
  {
    StampedFacts(steps, i);
    path := Source(steps, i + 1, steps[i].peer);
    if path[|path| - 1] != i {
      path := SourceNext(steps, path, i, steps[i].peer, StampAt(steps, i).value.physical);
    }
  }

  /** The physical time of a stamp is the greatest wall reading in its causal past. */
  lemma PhysicalTime(steps: seq<Step>, i: nat) returns (path: seq<nat>)
    requires Honest(steps) && i < |steps| && StampAt(steps, i).Some?
    ensures Path(steps, path) && path[|path| - 1] == i && Used(steps, path[0]) == Some(StampAt(steps, i).value.physical)
    ensures forall other :: Path(steps, other) && other[|other| - 1] == i && Used(steps, other[0]).Some? ==>
              Used(steps, other[0]).value <= StampAt(steps, i).value.physical
  {
    path := StampSource(steps, i);
    forall other | Path(steps, other) && other[|other| - 1] == i && Used(steps, other[0]).Some?
      ensures Used(steps, other[0]).value <= StampAt(steps, i).value.physical
    {
      ReadingsBehind(steps, other);
    }
  }
}
