/** The writer of the topic protocol: what an append and a compaction have done once they are over, and that they end. */
module TopicWriters {
  import opened Base
  import opened Bytes
  import opened TopicFiles
  import opened TopicRuns
  import opened TopicSafety
  import opened TopicProgress

  // ---- an append records its payload ------------------------------------------------------------------

  /** The record the writer has yet to store. */
  function Task(pc: WriterPc): Option<Payload> {
    match pc
    case Rotating(p) => Some(p)
    case Publishing(p) => Some(p)
    case Scanning(record, _, _) => record
    case Draining(record, _) => record
    case Republishing(record, _) => record
    case Marking(record, _) => record
    case WritingSize(p) => Some(p)
    case WritingBody(p) => Some(p)
    case StoringEnd(p) => Some(p)
    case _ => None
  }

  /** An append of `p` to `history` is under way. */
  predicate Appending(s: State, history: seq<Payload>, p: Payload) {
    if s.pc.StoringNext? then s.history == history + [p] else Task(s.pc) == Some(p) && s.history == history
  }

  predicate Appended(s: State, history: seq<Payload>, p: Payload) {
    s.pc.Idle? && s.history == history + [p] && s.next == |history| + 1
  }

  lemma AppendGoesOn(s: State, a: Action, history: seq<Payload>, p: Payload)
    requires Inv(s) && Appending(s, history, p)
    ensures Appending(Step(s, a), history, p) || Appended(Step(s, a), history, p)
  {
    if a == Write {
      WriteGoesOn(s, history, p);
    }
  }

  lemma WriteGoesOn(s: State, history: seq<Payload>, p: Payload)
    requires Inv(s) && Appending(s, history, p)
    ensures Appending(WriterStep(s), history, p) || Appended(WriterStep(s), history, p)
  {
  }

  /** Whatever happens after an append has begun, the writer is next idle with exactly that record added. */
  lemma {:induction false} AppendRecords(s: State, more: seq<Action>, history: seq<Payload>, p: Payload)
    requires Inv(s) && Appending(s, history, p)
    ensures Appending(After(s, more), history, p) || exists n :: 0 <= n <= |more| && Appended(After(s, more[..n]), history, p)
    decreases |more|
  {
    if more != [] {
      var front, a := more[..|more| - 1], more[|more| - 1];
      AppendRecords(s, front, history, p);
      if Appending(After(s, front), history, p) {
        AppendLast(s, more, history, p);
        assert more[..|more|] == more;
      } else {
        var n :| 0 <= n <= |front| && Appended(After(s, front[..n]), history, p);
        assert more[..n] == front[..n];
      }
    }
  }

  lemma AppendLast(s: State, more: seq<Action>, history: seq<Payload>, p: Payload)
    requires Inv(s) && more != [] && Appending(After(s, more[..|more| - 1]), history, p)
    ensures Appending(After(s, more), history, p) || Appended(After(s, more), history, p)
  {
    ForwardAll(s, more[..|more| - 1]);
    AfterLast(s, more);
    AppendGoesOn(After(s, more[..|more| - 1]), more[|more| - 1], history, p);
  }

  lemma AfterLast(s: State, more: seq<Action>)
    requires more != []
    ensures After(s, more) == Step(After(s, more[..|more| - 1]), more[|more| - 1])
  {
    assert more == more[..|more| - 1] + [more[|more| - 1]];
    AfterMore(s, more[..|more| - 1], more[|more| - 1]);
  }

  lemma BeginsAppend(s: State, p: Payload)
    requires Inv(s) && s.pc.Idle?
    ensures Appending(Step(s, Append(p)), s.history, p)
  {
  }

  // ---- the writer comes to its end ---------------------------------------------------------------------

  function Phase(pc: WriterPc): nat {
    match pc
    case Rotating(_) => 10
    case Publishing(_) => 9
    case Scanning(_, _, _) => 8
    case Draining(_, _) => 7
    case Republishing(_, _) => 6
    case Marking(_, _) => 5
    case WritingSize(_) => 4
    case WritingBody(_) => 3
    case StoringEnd(_) => 2
    case StoringNext => 1
    case Idle => 0
  }

  function Load(pc: WriterPc): nat {
    if pc.Scanning? then |pc.rest| else if pc.Marking? then |pc.removed| else 0
  }

  predicate Sooner(a: WriterPc, b: WriterPc) {
    Phase(a) < Phase(b) || (Phase(a) == Phase(b) && Load(a) < Load(b))
  }

  /** The writer's next step, if it has one. */
  ghost predicate NextStep(s: State, a: Action) {
    if s.pc.Scanning? && s.pc.rest != {} then a.Scan? && a.name in s.pc.rest else a == Write
  }

  lemma WriterSooner(s: State, a: Action)
    requires Inv(s) && !s.pc.Idle? && NextStep(s, a)
    ensures Sooner(Step(s, a).pc, s.pc)
  {
    if a == Write {
      WriteSooner(s);
    } else {
      ScanOne(s, a.name);
    }
  }

  lemma WriteSooner(s: State)
    requires s.segments != [] && Last(s.segments) in s.files && !s.pc.Idle? && (s.pc.Scanning? ==> s.pc.rest == {})
    ensures Sooner(WriterStep(s).pc, s.pc)
  {
    match s.pc
    case Draining(record, limit) => assert WriterStep(s) == Drained(s, record, limit);
    case Marking(record, removed) => assert removed != [] ==> |removed[1..]| < |removed|;
    case _ =>
  }

  /** Loading one cursor. */
  lemma ScanOne(s: State, c: Name)
    requires s.pc.Scanning? && c in s.pc.rest && c in s.readers
    ensures var m, t := s.readers[c].committed, s.pc.through;
            Step(s, Scan(c)) == s.(pc := Scanning(s.pc.record, s.pc.rest - {c}, Some(if t.None? || m < t.value then m else t.value)))
    ensures |s.pc.rest - {c}| < |s.pc.rest|
  {
  }

  predicate Writers(a: Action) {
    a.Write? || a.Scan?
  }

  /** No other party moves the writer. */
  lemma WriterAlone(s: State, a: Action)
    requires !Writers(a) && !s.pc.Idle?
    ensures Step(s, a).pc == s.pc
  {
  }

  /** From any state the writer can finish what it is doing, on its own. */
  lemma {:induction false} WriterFinishes(s: State) returns (more: seq<Action>)
    requires Inv(s)
    ensures (forall i :: 0 <= i < |more| ==> Writers(more[i])) && After(s, more).pc.Idle?
    decreases Phase(s.pc), Load(s.pc)
  {
    if s.pc.Idle? {
      more := [];
    } else {
      var a: Action := Write;
      if s.pc.Scanning? && s.pc.rest != {} {
        var name :| name in s.pc.rest;
        a := Scan(name);
      }
      WriterSooner(s, a);
      StepKeeps(s, a);
      var rest := WriterFinishes(Step(s, a));
      more := [a] + rest;
      assert more[1..] == rest;
    }
  }

  /** In every run an idle writer can append any record and be done, and then exactly it has been added. */
  lemma AppendCompletes(maxBytes: nat, actions: seq<Action>, p: Payload) returns (more: seq<Action>)
    requires Run(maxBytes, actions).pc.Idle?
    ensures forall i :: 0 <= i < |more| ==> Writers(more[i])
    ensures Appended(Run(maxBytes, actions + [Append(p)] + more), Run(maxBytes, actions).history, p)
  {
    var s := Run(maxBytes, actions);
    RunKeeps(maxBytes, actions);
    var s1 := Step(s, Append(p));
    StepKeeps(s, Append(p));
    BeginsAppend(s, p);
    more := WriterFinishes(s1);
    more := DoneAt(s1, more, s.history, p);
    RunMore(maxBytes, actions, Append(p));
    RunAfter(maxBytes, actions + [Append(p)], more);
  }

  lemma DoneAt(s: State, more: seq<Action>, history: seq<Payload>, p: Payload) returns (front: seq<Action>)
    requires Inv(s) && Appending(s, history, p) && After(s, more).pc.Idle? && forall i :: 0 <= i < |more| ==> Writers(more[i])
    ensures (forall i :: 0 <= i < |front| ==> Writers(front[i])) && Appended(After(s, front), history, p)
  {
    AppendRecords(s, more, history, p);
    var n :| 0 <= n <= |more| && Appended(After(s, more[..n]), history, p);
    front := more[..n];
  }

  // ---- when a segment is full ---------------------------------------------------------------------------

  /** A record that fits goes to the active segment; one that does not makes the writer open another. */
  lemma RotatesWhenFull(s: State, p: Payload)
    requires Inv(s) && s.pc.Idle?
    ensures var last := Last(s.segments);
            var s' := Step(s, Append(p));
            && last in s.files && last in s.ends && s'.segments == s.segments && s'.files == s.files
            && (s.ends[last] == last || |s.files[last]| + 4 + |p| <= s.maxBytes ==> s'.pc == WritingSize(p))
            && (s.ends[last] != last && |s.files[last]| + 4 + |p| > s.maxBytes ==>
                  Step(s', Write).segments == s.segments + [|s.history|] && Step(s', Write).pc == Publishing(p))
  {
  }

  // ---- what a compaction removes --------------------------------------------------------------------------

  /** The least of a set of committed cursors, none for the empty set. */
  ghost predicate IsLeast(readers: map<Name, Reader>, names: set<Name>, least: Option<nat>) {
    && names <= readers.Keys && (least.None? <==> names == {})
    && (least.Some? ==> (exists c :: c in names && readers[c].committed == least.value) && forall c :: c in names ==> least.value <= readers[c].committed)
  }

  lemma LeastMore(readers: map<Name, Reader>, names: set<Name>, least: Option<nat>, c: Name)
    requires IsLeast(readers, names, least) && c in readers
    ensures IsLeast(readers, names + {c}, Lower(least, readers[c].committed))
  {
    var m := readers[c].committed;
    if least.Some? && !(m < least.value) {
      var d :| d in names && readers[d].committed == least.value;
      assert d in names + {c};
    } else {
      assert c in names + {c};
    }
  }

  function Lower(least: Option<nat>, m: nat): Option<nat> {
    Some(if least.None? || m < least.value then m else least.value)
  }

  function Scans(s: State, record: Option<Payload>, rest: set<Name>, through: Option<nat>): State {
    s.(pc := Scanning(record, rest, through))
  }

  lemma ScanThen(s: State, record: Option<Payload>, rest: set<Name>, through: Option<nat>, c: Name, more: seq<Action>)
    requires c in rest && c in s.readers
    ensures After(Scans(s, record, rest, through), [Scan(c)] + more) ==
            After(Scans(s, record, rest - {c}, Lower(through, s.readers[c].committed)), more)
  {
    ScanOne(Scans(s, record, rest, through), c);
    assert ([Scan(c)] + more)[1..] == more;
  }

  /** Scanning the cursors one by one, in any order, finds the least. */
  lemma {:induction false} ScanAll(s: State, record: Option<Payload>, rest: set<Name>, through: Option<nat>) returns (more: seq<Action>, least: Option<nat>)
    requires rest <= s.readers.Keys && IsLeast(s.readers, s.readers.Keys - rest, through)
    ensures After(Scans(s, record, rest, through), more) == Scans(s, record, {}, least) && IsLeast(s.readers, s.readers.Keys, least)
    decreases |rest|
  {
    if rest == {} {
      more, least := [], through;
      assert s.readers.Keys - {} == s.readers.Keys;
    } else {
      var c :| c in rest;
      assert s.readers.Keys - (rest - {c}) == s.readers.Keys - rest + {c};
      LeastMore(s.readers, s.readers.Keys - rest, through, c);
      var later;
      later, least := ScanAll(s, record, rest - {c}, Lower(through, s.readers[c].committed));
      ScanThen(s, record, rest, through, c, later);
      more := [Scan(c)] + later;
    }
  }

  /** Every removed segment is marked. */
  lemma {:induction false} MarkAll(s: State) returns (more: seq<Action>)
    requires s.pc.Marking?
    ensures After(s, more) == s.(marked := s.marked + (set b | b in s.pc.removed), pc := Resume(s.pc.record))
    decreases |s.pc.removed|
  {
    var s' := Step(s, Write);
    if s.pc.removed == [] {
      more := [Write];
      assert s.marked + {} == s.marked && more[1..] == [];
    } else {
      var rest := MarkAll(s');
      more := [Write] + rest;
      assert more[1..] == rest;
      MarkedMore(s.marked, s.pc.removed);
    }
  }

  lemma MarkedMore(marked: set<nat>, removed: seq<nat>)
    requires removed != []
    ensures marked + {removed[0]} + (set b | b in removed[1..]) == marked + set b | b in removed
  {
    assert removed == [removed[0]] + removed[1..];
  }

  /** `n` segments at the front, and no more, end at or before the limit; the last one never counts. */
  ghost predicate Leading(segments: seq<nat>, ends: map<nat, nat>, limit: nat, n: nat) {
    && n < |segments| && (forall i :: 0 <= i < n ==> segments[i] in ends && ends[segments[i]] <= limit)
    && (n < |segments| - 1 ==> segments[n] in ends && ends[segments[n]] > limit)
  }

  lemma {:induction false} RemovableLeads(segments: seq<nat>, ends: map<nat, nat>, limit: nat)
    requires segments != [] && forall b :: b in segments ==> b in ends
    ensures Leading(segments, ends, limit, Removable(segments, ends, limit))
    decreases |segments|
  {
    assert segments[0] in segments;
    if |segments| >= 2 && ends[segments[0]] <= limit {
      RemovableLeads(segments[1..], ends, limit);
      var n := Removable(segments[1..], ends, limit);
      forall i | 0 <= i < n + 1 ensures segments[i] in ends && ends[segments[i]] <= limit {
        if i > 0 {
          assert segments[i] == segments[1..][i - 1];
        }
      }
      if n + 1 < |segments| - 1 {
        assert segments[n + 1] == segments[1..][n];
      }
    }
  }

  /** The state after a compaction that nothing interleaves with: `n` segments fewer, published and marked, all else as it was. */
  function Compacted(s: State, n: nat): State
    requires n <= |s.segments|
  {
    s.(segments := s.segments[n..], published := s.segments[n..], marked := s.marked + set b | b in s.segments[..n])
  }

  lemma CompactedNone(s: State)
    requires s.published == s.segments
    ensures Compacted(s, 0) == s
  {
    assert s.segments[0..] == s.segments && (set b | b in s.segments[..0]) == {};
  }

  lemma {:induction false} Joined(s: State, a: seq<Action>, t: State, b: seq<Action>, u: State)
    requires After(s, a) == t && After(t, b) == u
    ensures After(s, a + b) == u
  {
    AfterJoin(s, a, b);
  }

  lemma Once(s: State, a: Action)
    ensures After(s, [a]) == Step(s, a)
  {
    assert [a][1..] == [];
  }

  /** The part of a compaction after the cursors have been scanned. */
  lemma DrainsAll(s: State, limit: nat) returns (more: seq<Action>, n: nat)
    requires s.pc == Draining(None, limit) && s.segments != [] && s.published == s.segments && forall b :: b in s.segments ==> b in s.ends
    ensures Leading(s.segments, s.ends, limit, n) && After(s, more) == Compacted(s.(pc := Idle), n)
  {
    n := Removable(s.segments, s.ends, limit);
    RemovableLeads(s.segments, s.ends, limit);
    var s1 := Step(s, Write);
    Once(s, Write);
    if n == 0 {
      more := [Write];
      CompactedNone(s.(pc := Idle));
    } else {
      var s2 := Step(s1, Write);
      Once(s1, Write);
      var marks := MarkAll(s2);
      Joined(s1, [Write], s2, marks, Compacted(s.(pc := Idle), n));
      Joined(s, [Write], s1, [Write] + marks, Compacted(s.(pc := Idle), n));
      more := [Write] + ([Write] + marks);
    }
  }

  /** A compaction removes exactly the leading segments that end at or before the least committed cursor. */
  lemma CompactionRemoves(maxBytes: nat, actions: seq<Action>) returns (more: seq<Action>, least: Option<nat>, n: nat)
    requires Run(maxBytes, actions).pc.Idle?
    ensures var s := Run(maxBytes, actions);
            && IsLeast(s.readers, s.readers.Keys, least)
            && (if least.None? then n == 0 else Leading(s.segments, s.ends, least.value, n))
            && n <= |s.segments| && Run(maxBytes, actions + [Compact] + more) == Compacted(s, n)
  {
    var s := Run(maxBytes, actions);
    RunKeeps(maxBytes, actions);
    more, least, n := Compacts(s);
    RunMore(maxBytes, actions, Compact);
    RunAfter(maxBytes, actions + [Compact], more);
  }

  lemma Compacts(s: State) returns (more: seq<Action>, least: Option<nat>, n: nat)
    requires Inv(s) && s.pc.Idle?
    ensures IsLeast(s.readers, s.readers.Keys, least) && (if least.None? then n == 0 else Leading(s.segments, s.ends, least.value, n))
    ensures n <= |s.segments| && After(Step(s, Compact), more) == Compacted(s, n)
  {
    var s1 := Step(s, Compact);
    assert s.readers.Keys - s.readers.Keys == {};
    var scans;
    scans, least := ScanAll(s, None, s.readers.Keys, None);
    var s2 := Scans(s, None, {}, least);
    Once(s2, Write);
    if least.None? {
      n := 0;
      CompactedNone(s);
      Joined(s1, scans, s2, [Write], s);
      more := scans + [Write];
    } else {
      var s3, rest := Step(s2, Write), [];
      rest, n := DrainsAll(s3, least.value);
      Joined(s2, [Write], s3, rest, Compacted(s, n));
      Joined(s1, scans, s2, [Write] + rest, Compacted(s, n));
      more := scans + ([Write] + rest);
    }
  }

  /** A segment removed by a compaction loses its file as soon as no reader holds it, and not before. */
  lemma ReapedOnce(s: State, n: nat, i: nat)
    requires Inv(s) && s.pc.Idle? && i < n < |s.segments|
    ensures var t, b := Compacted(s, n), s.segments[i];
            b in Step(t, Reap(b)).files <==> exists c :: c in s.readers && b in Held(s.readers[c])
  {
    var t, b := Compacted(s, n), s.segments[i];
    NotKept(s.files.Keys, s.ends, s.segments, n, i);
    ReapsFile(t, b);
  }

  lemma NotKept(held: set<nat>, ends: map<nat, nat>, segments: seq<nat>, n: nat, i: nat)
    requires Chained(held, ends, segments) && i < n < |segments|
    ensures segments[i] in held && segments[i] in segments[..n] && segments[i] !in segments[n..]
  {
    assert segments[i] in segments && segments[..n][i] == segments[i];
    forall j | n <= j < |segments| ensures segments[j] != segments[i] {
      ChainOrder(held, ends, segments, i, j);
    }
  }

  lemma ReapsFile(t: State, b: nat)
    requires t.pc.Idle? && b in t.marked && b in t.files && b !in t.segments && b !in t.published
    ensures b in Step(t, Reap(b)).files <==> exists c :: c in t.readers && b in Held(t.readers[c])
  {
  }
}
