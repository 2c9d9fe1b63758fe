/** The topic protocol gets somewhere: readers are served, appends and compactions come to their end. */
module TopicProgress {
  import opened Base
  import opened Bytes
  import opened TopicFiles
  import opened TopicRuns
  import opened TopicSafety

  /** The state after more steps. */
  function After(s: State, actions: seq<Action>): State
    decreases |actions|
  {
    if actions == [] then s else After(Step(s, actions[0]), actions[1..])
  }

  lemma {:induction false} AfterMore(s: State, actions: seq<Action>, a: Action)
    ensures After(s, actions + [a]) == Step(After(s, actions), a)
    decreases |actions|
  {
    if actions == [] {
      assert (actions + [a])[1..] == [];
    } else {
      assert (actions + [a])[1..] == actions[1..] + [a];
      AfterMore(Step(s, actions[0]), actions[1..], a);
    }
  }

  lemma {:induction false} AfterJoin(s: State, a: seq<Action>, b: seq<Action>)
    ensures After(s, a + b) == After(After(s, a), b)
    decreases |a|
  {
    if a == [] {
      assert a + b == b;
    } else {
      assert (a + b)[1..] == a[1..] + b;
      AfterJoin(Step(s, a[0]), a[1..], b);
    }
  }

  /** Steps of a run are steps from its start. */
  lemma {:induction false} RunAfter(maxBytes: nat, actions: seq<Action>, more: seq<Action>)
    ensures Run(maxBytes, actions + more) == After(Run(maxBytes, actions), more)
    decreases |more|
  {
    if more == [] {
      assert actions + more == actions;
    } else {
      var front, a := more[..|more| - 1], more[|more| - 1];
      assert more == front + [a];
      RunAfter(maxBytes, actions, front);
      RunNext(maxBytes, actions, front, a);
    }
  }

  lemma RunNext(maxBytes: nat, actions: seq<Action>, front: seq<Action>, a: Action)
    requires Run(maxBytes, actions + front) == After(Run(maxBytes, actions), front)
    ensures Run(maxBytes, actions + (front + [a])) == After(Run(maxBytes, actions), front + [a])
  {
    RunMore(maxBytes, actions + front, a);
    AfterMore(Run(maxBytes, actions), front, a);
    assert actions + (front + [a]) == actions + front + [a];
  }

  lemma RunMore(maxBytes: nat, actions: seq<Action>, a: Action)
    ensures Run(maxBytes, actions + [a]) == Step(Run(maxBytes, actions), a)
  {
    assert (actions + [a])[..|actions|] == actions;
  }

  // ---- what steps leave alone ------------------------------------------------------------------------

  /** The action is one of this consumer's own. */
  predicate Own(a: Action, name: Name) {
    match a
    case Register(n) => n == name
    case Unregister(n) => n == name
    case Commit(n) => n == name
    case Seek(n, _) => n == name
    case Reset(n) => n == name
    case Read(n) => n == name
    case _ => false
  }

  lemma Untouched(s: State, a: Action, name: Name)
    requires !Own(a, name) && name in s.readers
    ensures name in Step(s, a).readers && Step(s, a).readers[name] == s.readers[name]
  {
  }

  lemma Forward(s: State, a: Action)
    requires Inv(s)
    ensures s.next <= Step(s, a).next && s.history <= Step(s, a).history
  {
    WriterForward(s);
  }

  lemma WriterForward(s: State)
    requires s.segments != [] && Counted(s.next, |s.history|, s.pc)
    ensures s.next <= WriterStep(s).next && s.history <= WriterStep(s).history
  {
  }

  lemma {:induction false} ForwardAll(s: State, actions: seq<Action>)
    requires Inv(s)
    ensures Inv(After(s, actions)) && s.next <= After(s, actions).next && s.history <= After(s, actions).history
    decreases |actions|
  {
    if actions != [] {
      StepKeeps(s, actions[0]);
      Forward(s, actions[0]);
      ForwardAll(Step(s, actions[0]), actions[1..]);
    }
  }

  lemma {:induction false} ListShort(held: set<nat>, ends: map<nat, nat>, list: seq<nat>, i: nat)
    requires Chained(held, ends, list) && i < |list|
    ensures list[i] >= i
  {
    if i > 0 {
      ListShort(held, ends, list, i - 1);
      assert Link(ends, list[i - 1], list[i]);
    }
  }

  /** No list of segments is longer than the history, by more than the empty one at its end. */
  lemma PublishedShort(s: State)
    requires Inv(s)
    ensures |s.published| <= |s.history| + 1
  {
    var full := Full(s.segments, s.pc);
    ListShort(s.files.Keys, s.ends, full, |full| - 1);
    assert full[|full| - 1] == Last(s.segments);
  }

  // ---- a reader is served ----------------------------------------------------------------------------

  /** How many steps of its own a reader is away from its next record, for lists of at most `longest` segments. */
  function Distance(r: Reader, longest: nat): nat {
    match r.pc
    case Ready => 8 + r.volatile + longest
    case Exhausted => 7 + r.volatile + longest
    case Positioning => 6 + r.volatile + longest
    case Snapshotting => 5 + r.volatile + longest
    case Finding(snapshot, k) => 4 + r.volatile + if k < |snapshot| then |snapshot| - k else 0
    case Opening(_, _) => 3 + r.volatile
    case Skipping(_, _, i) => 2 + if i < r.volatile then r.volatile - i else 0
    case Reading => 1
  }

  /** The reader has moved closer to the record, and nothing else of it has changed. */
  predicate Closer(r: Reader, r': Reader, longest: nat) {
    && r'.committed == r.committed && r'.from == r.from && r'.volatile == r.volatile && r'.got == r.got
    && Distance(r', longest) < Distance(r, longest)
  }

  /** The reader has received the record that was at its cursor, and no other. */
  predicate Received(history: seq<Payload>, r: Reader, r': Reader) {
    && r'.committed == r.committed && r'.from == r.from && r.volatile < |history|
    && r'.pc.Ready? && r'.volatile == r.volatile + 1 && r'.got == r.got + [history[r.volatile]]
  }

  lemma SkipCloser(s: State, r: Reader, longest: nat)
    requires Stored(s.files, s.ends, s.history) && s.segments != [] && r.pc.Skipping?
    requires ReaderOk(s.files.Keys, s.ends, s.next, s.history, Last(s.segments), r)
    ensures Closer(r, ReaderStep(s, r), longest)
  {
    if r.pc.i < r.volatile {
      FrameRead(s, Cursor(r.pc.base, r.pc.pos, r.pc.i));
    }
  }

  lemma FindCloser(s: State, r: Reader, longest: nat)
    requires s.segments != [] && r.pc.Finding? && ReaderOk(s.files.Keys, s.ends, s.next, s.history, Last(s.segments), r)
    ensures Closer(r, ReaderStep(s, r), longest)
  {
    assert r.pc.snapshot[r.pc.k] in r.pc.snapshot;
  }

  lemma LookCloser(s: State, r: Reader, longest: nat)
    requires s.segments != [] && ReaderOk(s.files.Keys, s.ends, s.next, s.history, Last(s.segments), r)
    requires r.volatile < s.next && |s.published| <= longest && !r.pc.Reading? && !r.pc.Skipping? && !r.pc.Finding?
    ensures Closer(r, ReaderStep(s, r), longest)
  {
  }

  /** A step of a reader with a record to read brings it closer, or delivers the record. */
  lemma ReadCloser(s: State, r: Reader, longest: nat)
    requires Inv(s) && ReaderOk(s.files.Keys, s.ends, s.next, s.history, Last(s.segments), r)
    requires r.volatile < s.next && |s.published| <= longest
    ensures if r.pc.Reading? then Received(s.history, r, ReaderStep(s, r)) else Closer(r, ReaderStep(s, r), longest)
  {
    match r.pc
    case Reading => ReadKeeps(s, r);
    case Skipping(_, _, _) => SkipCloser(s, r, longest);
    case Finding(_, _) => FindCloser(s, r, longest);
    case _ => LookCloser(s, r, longest);
  }

  function ReadsBy(actions: seq<Action>, name: Name): nat {
    if actions == [] then 0 else (if actions[0] == Read(name) then 1 else 0) + ReadsBy(actions[1..], name)
  }

  /** The consumer does nothing but read. */
  ghost predicate OnlyReads(actions: seq<Action>, name: Name) {
    forall i :: 0 <= i < |actions| && Own(actions[i], name) ==> actions[i] == Read(name)
  }

  ghost predicate Served(s: State, r: Reader, name: Name) {
    name in s.readers && Received(s.history, r, s.readers[name])
  }

  /** One step of anybody, seen from a reader with a record ahead of it. */
  ghost predicate Moves(s: State, a: Action, s': State, name: Name, longest: nat) {
    name in s.readers && s.readers[name].volatile < s.next ==>
      && name in s'.readers && s.next <= s'.next
      && var r, r' := s.readers[name], s'.readers[name];
         if a != Read(name) then r' == r else if r.pc.Reading? then Received(s'.history, r, r') else Closer(r, r', longest)
  }

  lemma OneStep(s: State, a: Action, name: Name, longest: nat)
    requires Inv(s) && (Own(a, name) ==> a == Read(name)) && |s.history| < longest
    ensures Moves(s, a, Step(s, a), name, longest)
  {
    Forward(s, a);
    if name in s.readers {
      if a != Read(name) {
        Untouched(s, a, name);
      } else if s.readers[name].volatile < s.next {
        PublishedShort(s);
        ReadCloser(s, s.readers[name], longest);
      }
    }
  }

  /** The states along a continuation. */
  ghost predicate Trace(trace: seq<State>, more: seq<Action>, name: Name, longest: nat) {
    |trace| == |more| + 1 && forall i, j {:trigger trace[i], trace[j]} :: 0 <= i < j < |trace| && j == i + 1 ==> Moves(trace[i], more[i], trace[j], name, longest)
  }

  lemma {:induction false} ServedFrom(trace: seq<State>, more: seq<Action>, name: Name, longest: nat, i: nat) returns (n: nat)
    requires Trace(trace, more, name, longest) && i <= |more|
    requires name in trace[i].readers && trace[i].readers[name].volatile < trace[i].next
    requires ReadsBy(more[i..], name) >= Distance(trace[i].readers[name], longest)
    ensures n <= |more| && Served(trace[n], trace[i].readers[name], name)
    decreases |more| - i
  {
    assert more[i..][1..] == more[i + 1..];
    assert Moves(trace[i], more[i], trace[i + 1], name, longest);
    if more[i] == Read(name) && trace[i].readers[name].pc.Reading? {
      n := i + 1;
    } else {
      n := ServedFrom(trace, more, name, longest, i + 1);
    }
  }

  lemma AfterNext(s: State, more: seq<Action>, i: nat)
    requires i < |more|
    ensures After(s, more[..i + 1]) == Step(After(s, more[..i]), more[i])
  {
    assert more[..i + 1] == more[..i] + [more[i]];
    AfterMore(s, more[..i], more[i]);
  }

  lemma HistoryShort(s: State, more: seq<Action>, i: nat)
    requires Inv(s) && i <= |more|
    ensures Inv(After(s, more[..i])) && |After(s, more[..i]).history| <= |After(s, more).history|
  {
    Onward(s, more[..i], more[i..]);
    assert more[..i] + more[i..] == more;
  }

  lemma Onward(s: State, a: seq<Action>, b: seq<Action>)
    requires Inv(s)
    ensures Inv(After(s, a)) && |After(s, a).history| <= |After(s, a + b).history|
  {
    ForwardAll(s, a);
    ForwardAll(After(s, a), b);
    AfterJoin(s, a, b);
  }

  lemma MovesAt(s: State, more: seq<Action>, name: Name, longest: nat, i: nat)
    requires Inv(s) && OnlyReads(more, name) && longest == |After(s, more).history| + 1 && i < |more|
    ensures Moves(After(s, more[..i]), more[i], After(s, more[..i + 1]), name, longest)
  {
    HistoryShort(s, more, i);
    OneStep(After(s, more[..i]), more[i], name, longest);
    AfterNext(s, more, i);
  }

  lemma ServedSoon(s: State, more: seq<Action>, name: Name, longest: nat) returns (n: nat)
    requires Inv(s) && name in s.readers && s.readers[name].volatile < s.next && OnlyReads(more, name)
    requires longest == |After(s, more).history| + 1 && ReadsBy(more, name) >= Distance(s.readers[name], longest)
    ensures n <= |more| && Served(After(s, more[..n]), s.readers[name], name)
  {
    var trace := seq(|more| + 1, i requires 0 <= i <= |more| => After(s, more[..i]));
    forall i, j | 0 <= i < j < |trace| && j == i + 1 ensures Moves(trace[i], more[i], trace[j], name, longest) {
      MovesAt(s, more, name, longest, i);
    }
    assert trace[0] == s && more[0..] == more;
    n := ServedFrom(trace, more, name, longest, 0);
  }

  /**
   In every run, a reader with a record ahead of it that goes on reading gets exactly that record, whatever
   everybody else does meanwhile, once it has taken a number of steps bounded by its offset and the log.
   */
  lemma ReaderServed(maxBytes: nat, actions: seq<Action>, more: seq<Action>, name: Name) returns (n: nat)
    requires var s := Run(maxBytes, actions);
             name in s.readers && s.readers[name].pc.Ready? && s.readers[name].volatile < s.next && OnlyReads(more, name)
    requires ReadsBy(more, name) >= 9 + Run(maxBytes, actions).readers[name].volatile + |Run(maxBytes, actions + more).history|
    ensures n <= |more| && Served(Run(maxBytes, actions + more[..n]), Run(maxBytes, actions).readers[name], name)
  {
    var s := Run(maxBytes, actions);
    RunKeeps(maxBytes, actions);
    RunAfter(maxBytes, actions, more);
    n := ServedSoon(s, more, name, |After(s, more).history| + 1);
    RunAfter(maxBytes, actions, more[..n]);
  }

  /** The reader is between reads, with its next one at `offset`. */
  ghost predicate StartsAt(r: Reader, offset: nat) {
    r.volatile == offset && r.pc.Ready? && r.got == [] && r.current.None?
  }

  /** A consumer starts at the tail, unless its name is already taken, and is gone once it leaves. */
  lemma Registers(s: State, name: Name)
    requires !s.pc.Scanning?
    ensures var t := Step(s, Register(name));
            if name in s.readers then t == s else t.readers.Keys == s.readers.Keys + {name} && StartsAt(t.readers[name], s.next)
    ensures var t := Step(s, Unregister(name));
            name in s.readers && s.readers[name].pc.Ready? ==> t.readers.Keys == s.readers.Keys - {name}
  {
  }

  /** A consumer goes where it seeks, commits where it is, and goes back there when it resets. */
  lemma ConsumerMoves(s: State, name: Name, offset: nat)
    requires name in s.readers && s.readers[name].pc.Ready?
    ensures var t := Step(s, Seek(name, offset));
            s.readers[name].committed <= offset ==> name in t.readers && StartsAt(t.readers[name], offset)
    ensures var t := Step(s, Commit(name));
            name in t.readers && t.readers[name] == s.readers[name].(committed := s.readers[name].volatile)
    ensures var t := Step(s, Reset(name));
            name in t.readers && StartsAt(t.readers[name], s.readers[name].committed) && t.readers[name].committed == s.readers[name].committed
  {
  }

  /** A reader comes back with nothing only if there was nothing to read when it looked. */
  lemma ComesBackEmpty(maxBytes: nat, actions: seq<Action>, name: Name)
    requires name in Run(maxBytes, actions).readers
    ensures var s := Run(maxBytes, actions);
            var r, r' := s.readers[name], ReaderStep(s, s.readers[name]);
            !r.pc.Ready? && r'.pc.Ready? && r'.got == r.got ==> r.volatile >= s.next
  {
    RunKeeps(maxBytes, actions);
    EmptyHanded(Run(maxBytes, actions), Run(maxBytes, actions).readers[name]);
  }

  lemma EmptyHanded(s: State, r: Reader)
    requires Stored(s.files, s.ends, s.history) && s.segments != [] && ReaderOk(s.files.Keys, s.ends, s.next, s.history, Last(s.segments), r)
    ensures var r' := ReaderStep(s, r); !r.pc.Ready? && r'.pc.Ready? && r'.got == r.got ==> r.volatile >= s.next
  {
    match r.pc
    case Reading => ReadKeeps(s, r);
    case _ =>
  }

  /** And then it does: with no record ahead and none being written, it is back after at most two steps. */
  lemma FindsNothing(maxBytes: nat, actions: seq<Action>, name: Name)
    requires name in Run(maxBytes, actions).readers
    ensures var s := Run(maxBytes, actions);
            var r := s.readers[name];
            r.pc.Ready? && r.volatile >= |s.history| ==>
              var r' := ReaderStep(s, ReaderStep(s, r)); r'.pc.Ready? && r'.got == r.got && r'.volatile == r.volatile
  {
    RunKeeps(maxBytes, actions);
  }
}
