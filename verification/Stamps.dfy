/** Event stamps: hybrid logical time first, event identity second. */
module Stamps {
  import opened Base

  datatype Stamp = Stamp(physical: nat, logical: nat, peer: nat, sequence: nat)

  /** The default stamp, used as a sentinel. */
  const ZERO: Stamp := Stamp(0, 0, 0, 0)

  predicate Less(a: Stamp, b: Stamp) {
    || a.physical < b.physical
    || (a.physical == b.physical && (
        || a.logical < b.logical
        || (a.logical == b.logical && (
            || a.peer < b.peer
            || (a.peer == b.peer && a.sequence < b.sequence)))))
  }

  predicate Leq(a: Stamp, b: Stamp) {
    a == b || Less(a, b)
  }

  /** The later of two optional clocks. */
  function Later(a: Option<Stamp>, b: Option<Stamp>): Option<Stamp> {
    if b.None? then a else if a.None? || Less(a.value, b.value) then b else a
  }

  /** `b` is at least as late as `a`. */
  predicate NotAfter(a: Option<Stamp>, b: Option<Stamp>) {
    a.Some? ==> b.Some? && Leq(a.value, b.value)
  }

  /** Advances a clock; reports whether it moved. */
  method MergeClock(local: Option<Stamp>, remote: Option<Stamp>) returns (r: Option<Stamp>, changed: bool)
    ensures r == Later(local, remote) && changed == (r != local)
    ensures NotAfter(local, r) && NotAfter(remote, r)
  {
    r, changed := local, false;
    if remote.Some? && (local.None? || Less(local.value, remote.value)) {
      r, changed := remote, true;
    }
  }

  /** The first of some stamps. */
  method Earliest(s: set<Stamp>) returns (first: Stamp)
    requires s != {}
    ensures first in s && forall x :: x in s && x != first ==> Less(first, x)
  {
    first :| first in s;
    var rest := s - {first};
    while rest != {}
      invariant rest < s && first in s && first !in rest && forall x :: x in s && x !in rest && x != first ==> Less(first, x)
      decreases rest
    {
      var x :| x in rest;
      if Less(x, first) {
        first := x;
      }
      rest := rest - {x};
    }
  }

  lemma LaterAssociates(a: Option<Stamp>, b: Option<Stamp>, c: Option<Stamp>)
    ensures Later(Later(a, b), c) == Later(a, Later(b, c))
  {
  }
}
