/** The hybrid logical clock of one device: minting stamps and observing those of others. */
module Clocks {
  import opened Base
  import opened Stamps
  import R = Receipts

  const U64_MAX: nat := R.U64_MAX
  const U32_MAX: nat := 0xFFFF_FFFF

  datatype Clock = Clock(next: nat, physical: nat, logical: nat)

  datatype Error = ClockExhausted | InvalidEventSequence

  datatype Minted = Minted(clock: Clock, stamp: Stamp)

  /** The time of `s` is not later than the clock. */
  predicate NotAhead(s: Stamp, c: Clock) {
    s.physical < c.physical || (s.physical == c.physical && s.logical <= c.logical)
  }

  /** The fields are within the machine's widths. */
  predicate Fits(s: Stamp) {
    s.physical <= U64_MAX && s.logical <= U32_MAX && s.sequence <= U64_MAX
  }

  /** The clock after a mint and the stamp minted. A missing wall reading is a clock before the epoch. */
  function Mint(c: Clock, peer: nat, wall: Option<nat>): (r: Result<Minted, Error>)
    ensures r.Ok? ==> !NotAhead(r.value.stamp, c) && NotAhead(r.value.stamp, r.value.clock)
    ensures r.Ok? ==> r.value.stamp.peer == peer && c.next == r.value.stamp.sequence < r.value.clock.next
    ensures r.Ok? <==> c.next != U64_MAX && wall.Some? && (wall.value > c.physical || c.logical < U32_MAX)
    ensures r.Ok? ==> wall.value <= r.value.stamp.physical
    ensures r.Ok? ==> forall t: Stamp :: !NotAhead(t, c) && wall.value <= t.physical ==> NotAhead(r.value.stamp, Clock(0, t.physical, t.logical))
  {
    if c.next == U64_MAX || wall.None? then Err(ClockExhausted)
    else if wall.value > c.physical then
      Ok(Minted(Clock(c.next + 1, wall.value, 0), Stamp(wall.value, 0, peer, c.next)))
    else if c.logical >= U32_MAX then Err(ClockExhausted)
    else Ok(Minted(Clock(c.next + 1, c.physical, c.logical + 1), Stamp(c.physical, c.logical + 1, peer, c.next)))
  }

  function Max(a: nat, b: nat): nat { if a < b then b else a }

  /** The clock after observing a stamp. */
  function Observed(c: Clock, peer: nat, s: Stamp, wall: nat): (r: Clock)
    ensures NotAhead(s, r) && r.next >= c.next && (s.peer == peer ==> s.sequence < r.next)
    ensures forall t :: NotAhead(t, c) ==> NotAhead(t, r)
    ensures wall <= r.physical && (r.next == c.next || (s.peer == peer && r.next == s.sequence + 1))
    ensures (r.physical, r.logical) in {(wall, 0), (c.physical, c.logical), (s.physical, s.logical)}
  {
    var physical := Max(Max(wall, c.physical), s.physical);
    var logical :=
      if physical > c.physical && physical > s.physical then 0
      else if physical == c.physical && physical == s.physical then Max(c.logical, s.logical)
      else if physical == c.physical then c.logical
      else s.logical;
    Clock(if s.peer == peer then Max(c.next, s.sequence + 1) else c.next, physical, logical)
  }

  /** Why an observation is refused. */
  function Unobservable(peer: nat, s: Stamp, wall: Option<nat>): Option<Error> {
    if wall.None? || (s.peer == peer && s.sequence == U64_MAX) then Some(ClockExhausted)
    else if s.sequence == 0 then Some(InvalidEventSequence)
    else None
  }

  /** The clock and receipts of one device. */
  class Device {
    const peer: nat
    var clock: Clock
    var receipts: R.Window
    var others: map<nat, R.Window>
    ghost var known: set<Stamp>

    /** Each peer has a window of its own. */
    ghost predicate Windows()
      reads this, receipts, others.Values
    {
      && receipts.Valid() && (forall p :: p in others ==> others[p].Valid() && others[p] != receipts)
      && (forall p, q :: p in others && q in others && others[p] == others[q] ==> p == q)
    }

    /** The clock is past everything minted or observed. */
    ghost predicate Ahead()
      reads this
    {
      forall s :: s in known ==> NotAhead(s, clock) && (s.peer == peer ==> s.sequence < clock.next)
    }

    ghost predicate Valid()
      reads this, receipts, others.Values
    {
      Windows() && Ahead()
    }

    /** The sequence numbers received from a peer. */
    ghost function SeenOf(p: nat): set<nat>
      reads this, receipts, others.Values
    {
      if p == peer then receipts.Seen() else if p in others then others[p].Seen() else {}
    }

    /** A device without a checkpoint starts at sequence one and the current time. */
    constructor (peer: nat, wall: nat)
      ensures Valid() && this.peer == peer && clock == Clock(1, wall, 0) && known == {}
      ensures fresh(receipts) && others == map[]
    {
      this.peer := peer;
      clock, others, known := Clock(1, wall, 0), map[], {};
      receipts := new R.Window();
    }

    /** A minted stamp is later than every stamp minted or observed before. */
    method MintStamp(wall: Option<nat>) returns (r: Result<Stamp, Error>)
      requires Valid()
      modifies this`clock, this`known
      ensures Valid()
      ensures r.Ok? <==> Mint(old(clock), peer, wall).Ok?
      ensures r.Ok? ==> r.value == Mint(old(clock), peer, wall).value.stamp && clock == Mint(old(clock), peer, wall).value.clock
      ensures r.Ok? ==> known == old(known) + {r.value} && forall s :: s in old(known) ==> Less(s, r.value)
      ensures r.Ok? ==> forall s :: s in old(known) && s.peer == peer ==> s.sequence < r.value.sequence
      ensures r.Err? ==> r.error == ClockExhausted && unchanged(this)
    {
      if clock.next == U64_MAX || wall.None? {
        return Err(ClockExhausted);
      }
      var physical, logical := wall.value, 0;
      if wall.value <= clock.physical {
        if clock.logical >= U32_MAX {
          return Err(ClockExhausted);
        }
        physical, logical := clock.physical, clock.logical + 1;
      }
      var stamp := Stamp(physical, logical, peer, clock.next);
      clock := Clock(clock.next + 1, physical, logical);
      known := known + {stamp};
      return Ok(stamp);
    }

    /** Finds the window of a peer, making an empty one for a peer not heard from. */
    method WindowOf(p: nat) returns (window: R.Window)
      requires Windows()
      modifies this`others
      ensures Windows() && fresh(others.Values - old(others.Values))
      ensures if p == peer then window == receipts else p in others && others[p] == window
      ensures forall q :: SeenOf(q) == old(SeenOf(q))
    {
      window := receipts;
      if p != peer {
        if p !in others {
          var empty := new R.Window();
          others := others[p := empty];
        }
        window := others[p];
      }
    }

    /** Records a sequence number of a peer. */
    method Receive(p: nat, sequence: R.Sequence) returns (r: Result<R.Outcome, R.Error>)
      requires Windows()
      modifies this`others, receipts, others.Values
      ensures Windows() && fresh(others.Values - old(others.Values))
      ensures r.Err? <==> sequence == 0
      ensures r.Ok? ==> r.value == if sequence in old(SeenOf(p)) then R.Duplicate else R.New
      ensures SeenOf(p) == old(SeenOf(p)) + if r.Ok? then {sequence} else {}
      ensures forall q :: q != p ==> SeenOf(q) == old(SeenOf(q))
    {
      var window := WindowOf(p);
      label Found:
      r := window.Observe(sequence);
      forall q | q != p ensures SeenOf(q) == old@Found(SeenOf(q)) {
        if q != peer && q in others {
          assert others[q] != window;
        }
      }
    }

    /** Records a stamp: it is new exactly on first sight, and the clock moves past it. */
    method ObserveStamp(s: Stamp, wall: Option<nat>) returns (r: Result<R.Outcome, Error>)
      requires Valid() && Fits(s)
      modifies this, receipts, others.Values
      ensures Valid() && receipts == old(receipts) && fresh(others.Values - old(others.Values))
      ensures r.Ok? <==> wall.Some? && s.sequence > 0 && (s.peer == peer ==> s.sequence < U64_MAX)
      ensures r.Err? <==> Unobservable(peer, s, wall).Some?
      ensures r.Err? ==> r.error == Unobservable(peer, s, wall).value && clock == old(clock) && known == old(known)
      ensures r.Ok? ==> r.value == if s.sequence in old(SeenOf(s.peer)) then R.Duplicate else R.New
      ensures r.Ok? ==> clock == Observed(old(clock), peer, s, wall.value) && known == old(known) + {s}
      ensures SeenOf(s.peer) == old(SeenOf(s.peer)) + if r.Ok? then {s.sequence} else {}
      ensures forall p :: p != s.peer ==> SeenOf(p) == old(SeenOf(p))
    {
      if wall.None? || (s.peer == peer && s.sequence == U64_MAX) {
        return Err(ClockExhausted);
      }
      var outcome := Receive(s.peer, s.sequence);
      if outcome.Err? {
        return Err(InvalidEventSequence);
      }
      clock := Observed(clock, peer, s, wall.value);
      known := known + {s};
      return Ok(outcome.value);
    }
  }
}
