/** Receipt windows: which sequence numbers of one peer have been seen. */
module Receipts {
  import opened Base

  const U64_MAX: nat := 0xFFFF_FFFF_FFFF_FFFF

  type Sequence = n: nat | n <= U64_MAX

  /** An inclusive range. */
  datatype Range = Range(start: nat, end: nat)

  datatype Outcome = New | Duplicate

  datatype Error = InvalidEventSequence

  predicate In(r: Range, n: nat) {
    r.start <= n <= r.end
  }

  predicate InSome(missing: seq<Range>, n: nat) {
    exists i :: 0 <= i < |missing| && In(missing[i], n)
  }

  /** Non-empty ranges of positive numbers in ascending order, with a gap between any two, all below `limit`. */
  predicate Tidy(missing: seq<Range>, limit: nat) {
    && (forall i :: 0 <= i < |missing| ==> 1 <= missing[i].start <= missing[i].end < limit)
    && (forall i, j :: 0 <= i < j < |missing| ==> missing[i].end + 1 < missing[j].start)
  }

  // ---- the ranges are determined by the numbers in them ---------------------------

  lemma TailIn(missing: seq<Range>, limit: nat, n: nat)
    requires Tidy(missing, limit) && missing != []
    ensures Tidy(missing[1..], limit)
    ensures InSome(missing, n) <==> In(missing[0], n) || InSome(missing[1..], n)
    ensures InSome(missing[1..], n) ==> missing[0].end + 1 < n
  {
    if InSome(missing, n) {
      var i :| 0 <= i < |missing| && In(missing[i], n);
      assert i > 0 ==> In(missing[1..][i - 1], n);
    }
    if InSome(missing[1..], n) {
      var i :| 0 <= i < |missing[1..]| && In(missing[1..][i], n);
      assert In(missing[i + 1], n);
    }
  }

  lemma FirstStart(a: seq<Range>, b: seq<Range>, limit: nat)
    requires Tidy(a, limit) && Tidy(b, limit) && a != [] && b != []
    requires InSome(a, a[0].start) && InSome(b, a[0].start)
    ensures b[0].start <= a[0].start
  {
    TailIn(b, limit, a[0].start);
  }

  lemma FirstEnd(a: seq<Range>, b: seq<Range>, limit: nat)
    requires Tidy(a, limit) && Tidy(b, limit) && a != [] && b != [] && a[0].start == b[0].start
    requires InSome(b, a[0].end + 1) ==> InSome(a, a[0].end + 1)
    ensures b[0].end <= a[0].end
  {
    TailIn(a, limit, a[0].end + 1);
    TailIn(b, limit, a[0].end + 1);
  }

  lemma {:induction false} SameRanges(a: seq<Range>, b: seq<Range>, limit: nat)
    requires Tidy(a, limit) && Tidy(b, limit) && forall n: nat :: InSome(a, n) <==> InSome(b, n)
    ensures a == b
  {
    assert a != [] ==> In(a[0], a[0].start) && InSome(a, a[0].start) && InSome(b, a[0].start);
    assert b != [] ==> In(b[0], b[0].start) && InSome(b, b[0].start) && InSome(a, b[0].start);
    if a != [] && b != [] {
      FirstStart(a, b, limit);
      FirstStart(b, a, limit);
      FirstEnd(a, b, limit);
      FirstEnd(b, a, limit);
      forall n: nat ensures InSome(a[1..], n) <==> InSome(b[1..], n) {
        TailIn(a, limit, n);
        TailIn(b, limit, n);
      }
      TailIn(a, limit, 0);
      TailIn(b, limit, 0);
      SameRanges(a[1..], b[1..], limit);
      assert a == [a[0]] + a[1..] && b == [b[0]] + b[1..];
    }
  }

  // ---- taking one number out of a range -------------------------------------------

  /** What is left of a range without `n`. */
  function Pieces(r: Range, n: nat): (p: seq<Range>)
    requires 1 <= r.start && In(r, n)
    ensures forall m :: InSome(p, m) <==> In(r, m) && m != n
    ensures forall i :: 0 <= i < |p| ==> r.start <= p[i].start <= p[i].end <= r.end
    ensures forall i, j :: 0 <= i < j < |p| ==> p[i].end + 1 < p[j].start
  {
    var p := (if r.start < n then [Range(r.start, n - 1)] else []) + (if n < r.end then [Range(n + 1, r.end)] else []);
    assert forall m: nat :: In(r, m) && m < n ==> In(p[0], m);
    assert forall m: nat :: In(r, m) && m > n ==> In(p[|p| - 1], m);
    p
  }

  lemma ReplaceIn(missing: seq<Range>, k: nat, p: seq<Range>, n: nat)
    requires k < |missing|
    ensures InSome(missing[..k] + p + missing[k + 1..], n) <==>
            InSome(p, n) || exists i :: 0 <= i < |missing| && i != k && In(missing[i], n)
  {
    var next := missing[..k] + p + missing[k + 1..];
    if InSome(next, n) {
      var i :| 0 <= i < |next| && In(next[i], n);
      if k <= i < k + |p| {
        assert In(p[i - k], n);
      } else {
        assert next[i] == missing[if i < k then i else i - |p| + 1];
      }
    }
    if InSome(p, n) {
      var i :| 0 <= i < |p| && In(p[i], n);
      assert In(next[k + i], n);
    }
    if i :| 0 <= i < |missing| && i != k && In(missing[i], n) {
      assert In(next[if i < k then i else i - 1 + |p|], n);
    }
  }

  lemma Removed(missing: seq<Range>, limit: nat, k: nat, n: nat)
    requires Tidy(missing, limit) && k < |missing| && In(missing[k], n)
    ensures var next := missing[..k] + Pieces(missing[k], n) + missing[k + 1..];
            Tidy(next, limit) && forall m: nat :: InSome(next, m) <==> InSome(missing, m) && m != n
  {
    var p := Pieces(missing[k], n);
    var next := missing[..k] + p + missing[k + 1..];
    assert Tidy(next, limit) by {
      forall i, j | 0 <= i < j < |next| ensures next[i].end + 1 < next[j].start {
      }
    }
    forall m: nat ensures InSome(next, m) <==> InSome(missing, m) && m != n {
      ReplaceIn(missing, k, p, m);
    }
  }

  /** Removes the range at `i` and puts back what is left of it. */
  method TakeOut(missing: seq<Range>, i: nat, sequence: nat) returns (r: seq<Range>)
    requires i < |missing| && 1 <= missing[i].start && In(missing[i], sequence)
    ensures r == missing[..i] + Pieces(missing[i], sequence) + missing[i + 1..]
  {
    var range := missing[i];
    r := missing[..i] + missing[i + 1..];
    if range.start < sequence {
      r := r[..i] + [Range(range.start, sequence - 1)] + r[i..];
    }
    if sequence < range.end {
      var at := i + if range.start < sequence then 1 else 0;
      r := r[..at] + [Range(sequence + 1, range.end)] + r[at..];
    }
  }

  // ---- the window ------------------------------------------------------------------

  class Window {
    var maxSeen: Sequence
    var missing: seq<Range>

    ghost predicate Valid()
      reads this
    {
      Tidy(missing, maxSeen)
    }

    /** The sequence numbers seen so far. */
    ghost function Seen(): set<nat>
      reads this
    {
      set n: nat | 1 <= n <= maxSeen && !InSome(missing, n)
    }

    constructor ()
      ensures Valid() && Seen() == {}
    {
      maxSeen, missing := 0, [];
    }

    /** The range that misses `sequence`, by binary search. */
    method MissingIndex(sequence: Sequence) returns (r: Option<nat>)
      requires Valid()
      ensures r.Some? <==> InSome(missing, sequence)
      ensures r.Some? ==> r.value < |missing| && In(missing[r.value], sequence)
    {
      var low, high := 0, |missing|;
      while low < high
        invariant 0 <= low <= high <= |missing|
        invariant forall i :: 0 <= i < low ==> missing[i].end < sequence
        invariant forall i :: high <= i < |missing| ==> sequence < missing[i].start
      {
        var mid := low + (high - low) / 2;
        if sequence < missing[mid].start {
          high := mid;
        } else if sequence > missing[mid].end {
          low := mid + 1;
        } else {
          return Some(mid);
        }
      }
      return None;
    }

    /** Records a sequence number; it is new exactly on first sight. Zero is refused. */
    method Observe(sequence: Sequence) returns (r: Result<Outcome, Error>)
      requires Valid()
      modifies this
      ensures Valid()
      ensures sequence == 0 <==> r == Err(InvalidEventSequence)
      ensures sequence == 0 ==> unchanged(this)
      ensures sequence > 0 ==> r == Ok(if sequence in old(Seen()) then Duplicate else New)
      ensures sequence > 0 ==> Seen() == old(Seen()) + {sequence}
    {
      if sequence == 0 {
        return Err(InvalidEventSequence);
      }
      if sequence > maxSeen {
        if maxSeen < U64_MAX && sequence > maxSeen + 1 {
          Appended(missing, maxSeen, sequence);
          missing := missing + [Range(maxSeen + 1, sequence - 1)];
        }
        maxSeen := sequence;
        return Ok(New);
      }
      var index := MissingIndex(sequence);
      if index.None? {
        return Ok(Duplicate);
      }
      Removed(missing, maxSeen, index.value, sequence);
      missing := TakeOut(missing, index.value, sequence);
      return Ok(New);
    }

    /** After any observations the window denotes exactly the valid numbers observed. */
    method ObserveAll(sequences: seq<Sequence>)
      requires Valid()
      modifies this
      ensures Valid() && Seen() == old(Seen()) + (set n | n in sequences && n > 0)
    {
      for i := 0 to |sequences|
        invariant Valid() && Seen() == old(Seen()) + (set n | n in sequences[..i] && n > 0)
      {
        assert sequences[..i + 1] == sequences[..i] + [sequences[i]];
        var r := Observe(sequences[i]);
      }
      assert sequences[..|sequences|] == sequences;
    }
  }

  lemma Appended(missing: seq<Range>, limit: nat, n: nat)
    requires Tidy(missing, limit) && limit + 1 < n
    ensures var next := missing + [Range(limit + 1, n - 1)];
            Tidy(next, n) && forall m: nat :: InSome(next, m) <==> InSome(missing, m) || limit < m < n
  {
    var next := missing + [Range(limit + 1, n - 1)];
    forall m: nat ensures InSome(next, m) <==> InSome(missing, m) || limit < m < n {
      if InSome(missing, m) {
        var i :| 0 <= i < |missing| && In(missing[i], m);
        assert In(next[i], m);
      }
      if limit < m < n {
        assert In(next[|missing|], m);
      }
    }
  }

  /** Windows are canonical: the numbers seen, in whatever order, determine the window. */
  lemma Canonical(a: Window, b: Window)
    requires a.Valid() && b.Valid() && a.Seen() == b.Seen()
    ensures a.maxSeen == b.maxSeen && a.missing == b.missing
  {
    assert a.maxSeen > 0 ==> a.maxSeen in a.Seen();
    assert b.maxSeen > 0 ==> b.maxSeen in b.Seen();
    forall n: nat ensures InSome(a.missing, n) <==> InSome(b.missing, n) {
      assert 1 <= n <= a.maxSeen ==> (n in a.Seen() <==> n in b.Seen());
    }
    SameRanges(a.missing, b.missing, a.maxSeen);
  }
}
