/**
 The topic as a protocol: one writer and any number of readers, interleaved at the granularity of
 single loads, stores and file writes.
 */
module TopicRuns {
  import opened Base
  import opened Bytes
  import opened TopicFiles

  type Name = string

  /** Where the writer is in an append of `p`, or in a compaction; one called on its own has no record to write. */
  datatype WriterPc =
    | Idle
    | Rotating(p: Payload)
    | Publishing(p: Payload)
    | Scanning(record: Option<Payload>, rest: set<Name>, through: Option<nat>)
    | Draining(record: Option<Payload>, limit: nat)
    | Republishing(record: Option<Payload>, removed: seq<nat>)
    | Marking(record: Option<Payload>, removed: seq<nat>)
    | WritingSize(p: Payload)
    | WritingBody(p: Payload)
    | StoringEnd(p: Payload)
    | StoringNext

  /** An open segment file, the position in it and the offset of the record there. */
  datatype Cursor = Cursor(base: nat, pos: nat, logical: nat)

  /** Where a reader is in fetching its next record. */
  datatype ReaderPc =
    | Ready
    | Exhausted
    | Positioning
    | Snapshotting
    | Finding(snapshot: seq<nat>, k: nat)
    | Opening(snapshot: seq<nat>, base: nat)
    | Skipping(base: nat, pos: nat, i: nat)
    | Reading

  /** A consumer and what it has read since it last moved its cursor. */
  datatype Reader = Reader(committed: nat, volatile: nat, current: Option<Cursor>, pc: ReaderPc, from: nat, got: seq<Payload>)

  /** Segments are named by their base offset; `files` holds those whose file exists. */
  datatype State = State(
    maxBytes: nat, files: map<nat, bytes>, ends: map<nat, nat>, published: seq<nat>, next: nat,
    segments: seq<nat>, pc: WriterPc, marked: set<nat>, readers: map<Name, Reader>, history: seq<Payload>)

  const START: seq<nat> := [0]

  function Initial(maxBytes: nat): State {
    State(maxBytes, map[0 := LE32(MAGIC)], map[0 := 0], START, 0, START, Idle, {}, map[], [])
  }

  datatype Action =
    | Append(p: Payload)
    | Compact
    | Write
    | Scan(name: Name)
    | Register(name: Name)
    | Unregister(name: Name)
    | Commit(name: Name)
    | Seek(name: Name, offset: nat)
    | Reset(name: Name)
    | Read(name: Name)
    | Reap(base: nat)

  // ---- the writer ----------------------------------------------------------------------

  /** How many of the oldest segments, the last excepted, end at or before `limit`. */
  function Removable(segments: seq<nat>, ends: map<nat, nat>, limit: nat): nat
    decreases |segments|
  {
    if |segments| < 2 || segments[0] !in ends || ends[segments[0]] > limit then 0
    else 1 + Removable(segments[1..], ends, limit)
  }

  lemma {:induction false} RemovableFewer(segments: seq<nat>, ends: map<nat, nat>, limit: nat)
    ensures Removable(segments, ends, limit) == 0 || Removable(segments, ends, limit) < |segments|
    decreases |segments|
  {
    if |segments| >= 2 {
      RemovableFewer(segments[1..], ends, limit);
    }
  }

  function Begun(s: State, p: Payload): State {
    if !s.pc.Idle? || s.segments == [] then s
    else
      var last := s.segments[|s.segments| - 1];
      if last !in s.files || last !in s.ends then s
      else if s.ends[last] != last && |s.files[last]| + 4 + |p| > s.maxBytes then s.(pc := Rotating(p))
      else s.(pc := WritingSize(p))
  }

  function Rotated(s: State, p: Payload): State {
    s.(files := s.files[s.next := LE32(MAGIC)], ends := s.ends[s.next := s.next], segments := s.segments + [s.next], pc := Publishing(p))
  }

  /** A compaction called on its own. */
  function Begin(s: State): State {
    if s.pc.Idle? then s.(pc := Scanning(None, s.readers.Keys, None)) else s
  }

  /** What the writer does after a compaction. */
  function Resume(record: Option<Payload>): WriterPc {
    if record.Some? then WritingSize(record.value) else Idle
  }

  function Drained(s: State, record: Option<Payload>, limit: nat): State {
    var n := Removable(s.segments, s.ends, limit);
    RemovableFewer(s.segments, s.ends, limit);
    if n == 0 then s.(pc := Resume(record))
    else s.(segments := s.segments[n..], pc := Republishing(record, s.segments[..n]))
  }

  function Wrote(s: State, b: bytes, pc: WriterPc): State {
    if s.segments == [] || s.segments[|s.segments| - 1] !in s.files then s
    else
      var last := s.segments[|s.segments| - 1];
      s.(files := s.files[last := s.files[last] + b], pc := pc)
  }

  function Ended(s: State, p: Payload): State {
    if s.segments == [] then s
    else
      var last := s.segments[|s.segments| - 1];
      s.(ends := s.ends[last := |s.history| + 1], history := s.history + [p], pc := StoringNext)
  }

  /** The writer's next load or store. */
  function WriterStep(s: State): State {
    match s.pc
    case Idle => s
    case Rotating(p) => Rotated(s, p)
    case Publishing(p) => s.(published := s.segments, pc := Scanning(Some(p), s.readers.Keys, None))
    case Scanning(record, rest, through) =>
      if rest != {} then s else if through.None? then s.(pc := Resume(record)) else s.(pc := Draining(record, through.value))
    case Draining(record, limit) => Drained(s, record, limit)
    case Republishing(record, removed) => s.(published := s.segments, pc := Marking(record, removed))
    case Marking(record, removed) =>
      if removed == [] then s.(pc := Resume(record))
      else s.(marked := s.marked + {removed[0]}, pc := Marking(record, removed[1..]))
    case WritingSize(p) => Wrote(s, LE32(|p|), WritingBody(p))
    case WritingBody(p) => Wrote(s, p, StoringEnd(p))
    case StoringEnd(p) => Ended(s, p)
    case StoringNext => s.(next := |s.history|, pc := Idle)
  }

  /** Loads the committed cursor of one more consumer, under the lock on the consumers. */
  function Scanned(s: State, name: Name): State {
    if !s.pc.Scanning? || name !in s.pc.rest || name !in s.readers then s
    else
      var c := s.readers[name].committed;
      var through := if s.pc.through.None? || c < s.pc.through.value then c else s.pc.through.value;
      s.(pc := Scanning(s.pc.record, s.pc.rest - {name}, Some(through)))
  }

  // ---- readers ---------------------------------------------------------------------------

  /** The record at a position of a file, if it is all there. */
  function FrameOf(file: bytes, pos: nat): Option<Payload> {
    if pos + 4 <= |file| && pos + 4 + Word(file[pos..pos + 4]) <= |file| then
      Some(file[pos + 4..pos + 4 + Word(file[pos..pos + 4])])
    else None
  }

  /** The reader's next load or read; one that cannot be taken leaves it where it is. */
  function ReaderStep(s: State, r: Reader): Reader {
    match r.pc
    case Ready =>
      if r.current.None? then r.(pc := Positioning)
      else if r.current.value.base !in s.ends then r
      else if r.current.value.logical < s.ends[r.current.value.base] then r.(pc := Reading)
      else r.(pc := Exhausted)
    case Exhausted =>
      if r.current.None? || r.current.value.logical >= s.next then r.(pc := Ready)
      else r.(current := None, pc := Positioning)
    case Positioning => if r.volatile >= s.next then r.(pc := Ready) else r.(pc := Snapshotting)
    case Snapshotting => r.(pc := Finding(s.published, 0))
    case Finding(snapshot, k) =>
      if k >= |snapshot| || snapshot[k] !in s.ends then r
      else if snapshot[k] <= r.volatile < s.ends[snapshot[k]] then r.(pc := Opening(snapshot, snapshot[k]))
      else r.(pc := Finding(snapshot, k + 1))
    case Opening(_, base) => if base in s.files then r.(pc := Skipping(base, HEADER, base)) else r
    case Skipping(base, pos, i) =>
      if i == r.volatile then r.(current := Some(Cursor(base, pos, i)), pc := Reading)
      else if base !in s.files || FrameOf(s.files[base], pos).None? then r
      else r.(pc := Skipping(base, pos + 4 + |FrameOf(s.files[base], pos).value|, i + 1))
    case Reading =>
      if r.current.None? || r.current.value.base !in s.files then r
      else
        var c := r.current.value;
        var p := FrameOf(s.files[c.base], c.pos);
        if p.None? then r
        else r.(current := Some(Cursor(c.base, c.pos + 4 + |p.value|, c.logical + 1)), pc := Ready,
                volatile := c.logical + 1, got := r.got + [p.value])
  }

  /** The segments a reader keeps alive. */
  function Held(r: Reader): set<nat> {
    (if r.current.Some? then {r.current.value.base} else {}) +
    match r.pc
    case Finding(snapshot, _) => set b | b in snapshot
    case Opening(snapshot, base) => (set b | b in snapshot) + {base}
    case Skipping(base, _, _) => {base}
    case _ => {}
  }

  // ---- all steps -----------------------------------------------------------------------------

  function Moved(r: Reader, offset: nat): Reader {
    r.(volatile := offset, current := None, from := offset, got := [])
  }

  /** A file goes when its segment is marked and nothing refers to it any more. */
  function Reaped(s: State, base: nat): State {
    if && base in s.marked && base !in s.segments && base !in s.published
       && !(s.pc.Republishing? && base in s.pc.removed) && !(s.pc.Marking? && base in s.pc.removed)
       && (forall c :: c in s.readers ==> base !in Held(s.readers[c]))
    then s.(files := s.files - {base})
    else s
  }

  /** One step of the protocol; a step that is not enabled changes nothing. */
  function Step(s: State, a: Action): State {
    match a
    case Append(p) => Begun(s, p)
    case Compact => Begin(s)
    case Write => WriterStep(s)
    case Scan(name) => Scanned(s, name)
    case Register(name) =>
      if name in s.readers || s.pc.Scanning? then s
      else s.(readers := s.readers[name := Reader(s.next, s.next, None, Ready, s.next, [])])
    case Unregister(name) =>
      if name !in s.readers || s.pc.Scanning? || !s.readers[name].pc.Ready? then s else s.(readers := s.readers - {name})
    case Commit(name) =>
      if name !in s.readers || !s.readers[name].pc.Ready? then s
      else s.(readers := s.readers[name := s.readers[name].(committed := s.readers[name].volatile)])
    case Seek(name, offset) =>
      if name !in s.readers || !s.readers[name].pc.Ready? || offset < s.readers[name].committed then s
      else s.(readers := s.readers[name := Moved(s.readers[name], offset)])
    case Reset(name) =>
      if name !in s.readers || !s.readers[name].pc.Ready? then s
      else s.(readers := s.readers[name := Moved(s.readers[name], s.readers[name].committed)])
    case Read(name) =>
      if name !in s.readers then s else s.(readers := s.readers[name := ReaderStep(s, s.readers[name])])
    case Reap(base) => Reaped(s, base)
  }

  /** The state after a run. */
  function Run(maxBytes: nat, actions: seq<Action>): State {
    if actions == [] then Initial(maxBytes)
    else Step(Run(maxBytes, actions[..|actions| - 1]), actions[|actions| - 1])
  }
}
