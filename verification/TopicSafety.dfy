/** What every step of the topic protocol keeps. */
module TopicSafety {
  import opened Base
  import opened Bytes
  import opened TopicFiles
  import opened TopicRuns

  // ---- the invariant, one component at a time -------------------------------------------

  /** A file begins with the records its end offset promises. */
  predicate StoredAt(files: map<nat, bytes>, ends: map<nat, nat>, history: seq<Payload>, b: nat) {
    b in files && b in ends && b <= ends[b] <= |history| && At(files[b], 0, Image(history[b..ends[b]]))
  }

  ghost predicate Stored(files: map<nat, bytes>, ends: map<nat, nat>, history: seq<Payload>) {
    forall b :: b in files ==> StoredAt(files, ends, history, b)
  }

  predicate Link(ends: map<nat, nat>, a: nat, b: nat) {
    a in ends && b in ends && a < b == ends[a]
  }

  /** Existing segments, each ending where the next begins. */
  ghost predicate Chained(held: set<nat>, ends: map<nat, nat>, list: seq<nat>) {
    && list != [] && (forall b :: b in list ==> b in held && b in ends)
    && (forall i, j :: 0 <= i < j < |list| && j == i + 1 ==> Link(ends, list[i], list[j]))
  }

  /** What has been written past the last record stored. */
  function Pending(pc: WriterPc): bytes {
    match pc
    case WritingBody(p) => LE32(|p|)
    case StoringEnd(p) => LE32(|p|) + p
    case _ => []
  }

  function Last(s: seq<nat>): nat
    requires s != []
  {
    s[|s| - 1]
  }

  /** The active segment ends the history and its file holds nothing but it and the pending bytes. */
  ghost predicate Writing(files: map<nat, bytes>, ends: map<nat, nat>, segments: seq<nat>, history: seq<Payload>, pc: WriterPc) {
    && segments != [] && Last(segments) in files && Last(segments) in ends
    && ends[Last(segments)] == |history| && Last(segments) <= |history|
    && files[Last(segments)] == Image(history[Last(segments)..]) + Pending(pc)
    && (pc.Rotating? || pc.StoringNext? ==> Last(segments) < |history|)
    && (pc.Publishing? ==> Last(segments) == |history|)
    && (forall b :: b in ends ==> b <= Last(segments) && ends[b] <= |history|)
  }

  /** The writer's segments together with those it has drained but not yet unpublished. */
  function Full(segments: seq<nat>, pc: WriterPc): seq<nat> {
    if pc.Republishing? then pc.removed + segments else segments
  }

  ghost predicate Listed(held: set<nat>, ends: map<nat, nat>, published: seq<nat>, segments: seq<nat>, pc: WriterPc) {
    && Chained(held, ends, Full(segments, pc)) && segments != []
    && if pc.Publishing? then |segments| > 1 && published == segments[..|segments| - 1] else published == Full(segments, pc)
  }

  predicate Counted(next: nat, total: nat, pc: WriterPc) {
    if pc.StoringNext? then next + 1 == total else next == total
  }

  /** No committed cursor is before the oldest segment, nor will be after the compaction under way. */
  ghost predicate Safe(readers: map<Name, Reader>, segments: seq<nat>, pc: WriterPc) {
    && segments != [] && (forall c :: c in readers ==> segments[0] <= readers[c].committed)
    && (pc.Scanning? ==> pc.rest <= readers.Keys && forall c :: c in readers && c !in pc.rest ==>
          pc.through.Some? && pc.through.value <= readers[c].committed)
    && (pc.Draining? ==> forall c :: c in readers ==> pc.limit <= readers[c].committed || Last(segments) <= readers[c].committed)
  }

  /** What a reader relies on: `held` are the segments whose file exists, `last` the active one. */
  ghost predicate ReaderOk(held: set<nat>, ends: map<nat, nat>, next: nat, history: seq<Payload>, last: nat, r: Reader) {
    && r.committed <= r.volatile && r.from + |r.got| == r.volatile
    && (r.got == [] || (r.volatile <= |history| && r.got == history[r.from..r.volatile]))
    && (r.current.Some? ==> CursorOk(held, ends, history, r.current.value) && r.current.value.logical == r.volatile)
    && match r.pc
       case Ready => true
       case Exhausted => r.current.Some?
       case Positioning => r.current.None?
       case Snapshotting => r.current.None? && r.volatile < next
       case Finding(snapshot, k) => r.current.None? && SnapshotOk(held, ends, last, snapshot, r.volatile) && k < |snapshot| && snapshot[k] <= r.volatile
       case Opening(snapshot, base) => r.current.None? && (forall b :: b in snapshot ==> b in held) && base in held && base in ends && base <= r.volatile < ends[base]
       case Skipping(base, pos, i) => r.current.None? && i <= r.volatile && CursorOk(held, ends, history, Cursor(base, pos, i)) && r.volatile < ends[base]
       case Reading => r.current.Some? && r.current.value.logical < ends[r.current.value.base]
  }

  predicate CursorOk(held: set<nat>, ends: map<nat, nat>, history: seq<Payload>, c: Cursor) {
    && c.base in held && c.base in ends && c.base <= c.logical <= ends[c.base] <= |history|
    && c.pos == Length(history[c.base..c.logical])
  }

  /** A list of segments loaded earlier still covers the offset sought. */
  ghost predicate SnapshotOk(held: set<nat>, ends: map<nat, nat>, last: nat, snapshot: seq<nat>, offset: nat) {
    && Chained(held, ends, snapshot) && snapshot[0] <= offset < ends[Last(snapshot)]
    && (forall b :: b in snapshot ==> b <= last)
  }

  ghost predicate ReadersOk(s: State) {
    && s.segments != []
    && forall c :: c in s.readers ==> ReaderOk(s.files.Keys, s.ends, s.next, s.history, Last(s.segments), s.readers[c])
  }

  ghost predicate Inv(s: State) {
    && Stored(s.files, s.ends, s.history)
    && Writing(s.files, s.ends, s.segments, s.history, s.pc)
    && Listed(s.files.Keys, s.ends, s.published, s.segments, s.pc)
    && Counted(s.next, |s.history|, s.pc)
    && Safe(s.readers, s.segments, s.pc)
    && ReadersOk(s)
  }

  // ---- the writer only adds --------------------------------------------------------------

  /** Ends of closed segments stay, the history grows at its end, files stay. */
  ghost predicate Grows(s: State, s': State) {
    && s.segments != [] && s'.segments != [] && Last(s.segments) <= Last(s'.segments)
    && s.files.Keys <= s'.files.Keys && s.next <= s'.next && s.readers == s'.readers
    && |s.history| <= |s'.history| && s'.history[..|s.history|] == s.history
    && (forall b :: b in s.ends ==> b in s'.ends && s.ends[b] <= s'.ends[b] <= |s'.history|)
    && (forall b :: b in s.ends && b != Last(s.segments) ==> s'.ends[b] == s.ends[b])
  }

  lemma CursorGrows(s: State, s': State, c: Cursor)
    requires Grows(s, s') && CursorOk(s.files.Keys, s.ends, s.history, c)
    ensures CursorOk(s'.files.Keys, s'.ends, s'.history, c)
  {
    assert s'.history[c.base..c.logical] == s.history[c.base..c.logical] by {
      assert s'.history[..|s.history|][c.base..c.logical] == s'.history[c.base..c.logical];
    }
  }

  lemma {:induction false} ChainOrder(held: set<nat>, ends: map<nat, nat>, list: seq<nat>, i: nat, j: nat)
    requires Chained(held, ends, list) && i < j < |list|
    ensures list[i] < list[j] && list[i] in ends && ends[list[i]] <= list[j]
    decreases j
  {
    assert Link(ends, list[j - 1], list[j]);
    if i < j - 1 {
      ChainOrder(held, ends, list, i, j - 1);
    }
  }

  lemma ChainGrows(s: State, s': State, list: seq<nat>, last: nat)
    requires Grows(s, s') && Chained(s.files.Keys, s.ends, list) && last == Last(s.segments) && forall b :: b in list ==> b <= last
    ensures Chained(s'.files.Keys, s'.ends, list) && s.ends[Last(list)] <= s'.ends[Last(list)]
  {
    forall i, j | 0 <= i < j < |list| && j == i + 1 ensures Link(s'.ends, list[i], list[j]) {
      assert Link(s.ends, list[i], list[j]);
      assert list[j] in list;
    }
  }

  lemma ReaderGrows(s: State, s': State, r: Reader)
    requires Grows(s, s') && ReaderOk(s.files.Keys, s.ends, s.next, s.history, Last(s.segments), r)
    ensures ReaderOk(s'.files.Keys, s'.ends, s'.next, s'.history, Last(s'.segments), r)
  {
    if r.current.Some? {
      CursorGrows(s, s', r.current.value);
    }
    if r.pc.Skipping? {
      CursorGrows(s, s', Cursor(r.pc.base, r.pc.pos, r.pc.i));
    }
    if r.pc.Finding? {
      ChainGrows(s, s', r.pc.snapshot, Last(s.segments));
    }
    if r.got != [] {
      assert s'.history[..|s.history|][r.from..r.volatile] == s'.history[r.from..r.volatile];
    }
  }

  lemma ReadersGrow(s: State, s': State)
    requires Grows(s, s') && ReadersOk(s)
    ensures ReadersOk(s')
  {
    forall c | c in s'.readers
      ensures ReaderOk(s'.files.Keys, s'.ends, s'.next, s'.history, Last(s'.segments), s'.readers[c])
    {
      ReaderGrows(s, s', s.readers[c]);
    }
  }

  // ---- steps of the writer -----------------------------------------------------------------

  /** Only the writer's position, its lists or the marks differ. */
  predicate SameData(s: State, s': State) {
    && s'.files == s.files && s'.ends == s.ends && s'.next == s.next && s'.history == s.history && s'.readers == s.readers
    && s.segments != [] && s'.segments != [] && Last(s.segments) == Last(s'.segments)
  }

  lemma SameReaders(s: State, s': State)
    requires ReadersOk(s) && SameData(s, s')
    ensures ReadersOk(s')
  {
  }

  lemma EmptyImage(history: seq<Payload>, b: nat)
    requires b == |history|
    ensures Image(history[b..b]) == LE32(MAGIC) == Image(history[b..])
  {
    assert history[b..b] == [] == history[b..];
  }

  lemma RotatedStored(s: State, p: Payload)
    requires Inv(s) && s.pc == Rotating(p)
    ensures s.next !in s.ends && s.next == |s.history|
    ensures Stored(Rotated(s, p).files, Rotated(s, p).ends, s.history)
    ensures Writing(Rotated(s, p).files, Rotated(s, p).ends, Rotated(s, p).segments, s.history, Publishing(p))
  {
    var s' := Rotated(s, p);
    EmptyImage(s.history, s.next);
    forall b | b in s'.files ensures StoredAt(s'.files, s'.ends, s.history, b) {
      if b != s.next {
        assert StoredAt(s.files, s.ends, s.history, b);
      }
    }
    assert LE32(MAGIC) + [] == LE32(MAGIC);
  }

  lemma RotatedListed(s: State, p: Payload)
    requires Inv(s) && s.pc == Rotating(p) && s.next !in s.ends && s.next == |s.history|
    ensures Listed(Rotated(s, p).files.Keys, Rotated(s, p).ends, s.published, Rotated(s, p).segments, Publishing(p))
  {
    var s' := Rotated(s, p);
    var list := s'.segments;
    forall i, j | 0 <= i < j < |list| && j == i + 1 ensures Link(s'.ends, list[i], list[j]) {
      if j < |s.segments| {
        assert Link(s.ends, s.segments[i], s.segments[j]);
      }
    }
  }

  lemma RotatedKeeps(s: State, p: Payload)
    requires Inv(s) && s.pc == Rotating(p)
    ensures Inv(Rotated(s, p))
  {
    var s' := Rotated(s, p);
    RotatedStored(s, p);
    RotatedListed(s, p);
    assert Safe(s'.readers, s'.segments, s'.pc);
    assert s'.history[..|s.history|] == s.history;
    ReadersGrow(s, s');
  }

  /** The lists change but the writer's data do not. */
  lemma RelistedKeeps(s: State, s': State)
    requires Inv(s) && SameData(s, s')
    requires Pending(s.pc) == Pending(s'.pc) && !s.pc.StoringNext? && !s'.pc.StoringNext? && !s'.pc.Publishing?
    requires s'.pc.Rotating? ==> Last(s.segments) < |s.history|
    requires Listed(s'.files.Keys, s'.ends, s'.published, s'.segments, s'.pc) && Safe(s'.readers, s'.segments, s'.pc)
    ensures Inv(s')
  {
    SameReaders(s, s');
  }

  lemma BegunKeeps(s: State, p: Payload)
    requires Inv(s)
    ensures Inv(Begun(s, p))
  {
    if s.pc.Idle? {
      var s' := Begun(s, p);
      assert s' == s.(pc := Rotating(p)) || s' == s.(pc := WritingSize(p));
      RelistedKeeps(s, s');
    }
  }

  lemma BeginKeeps(s: State)
    requires Inv(s)
    ensures Inv(Begin(s))
  {
    if s.pc.Idle? {
      RelistedKeeps(s, Begin(s));
    }
  }

  lemma {:induction false} RemovableEnds(segments: seq<nat>, held: set<nat>, ends: map<nat, nat>, limit: nat)
    requires Chained(held, ends, segments)
    ensures var n := Removable(segments, ends, limit); n < |segments| && (n > 0 ==> segments[n] <= limit)
    decreases |segments|
  {
    if |segments| >= 2 && ends[segments[0]] <= limit {
      assert Link(ends, segments[0], segments[1]);
      ChainTail(held, ends, segments, 1);
      RemovableEnds(segments[1..], held, ends, limit);
    }
  }

  lemma ChainTail(held: set<nat>, ends: map<nat, nat>, list: seq<nat>, n: nat)
    requires Chained(held, ends, list) && n < |list|
    ensures Chained(held, ends, list[n..])
  {
    var tail := list[n..];
    forall i, j | 0 <= i < j < |tail| && j == i + 1 ensures Link(ends, tail[i], tail[j]) {
      assert Link(ends, list[n + i], list[n + j]);
    }
  }

  lemma DrainedSafe(readers: map<Name, Reader>, held: set<nat>, ends: map<nat, nat>, segments: seq<nat>, record: Option<Payload>, limit: nat)
    requires Chained(held, ends, segments) && Safe(readers, segments, Draining(record, limit))
    ensures var n := Removable(segments, ends, limit);
            && n < |segments| && Safe(readers, segments, Resume(record))
            && (n > 0 ==> Safe(readers, segments[n..], Republishing(record, segments[..n])))
  {
    var n := Removable(segments, ends, limit);
    RemovableEnds(segments, held, ends, limit);
    if 0 < n < |segments| - 1 {
      ChainOrder(held, ends, segments, n, |segments| - 1);
    }
  }

  lemma DrainedListed(held: set<nat>, ends: map<nat, nat>, segments: seq<nat>, n: nat, record: Option<Payload>)
    requires Chained(held, ends, segments) && n < |segments|
    ensures Listed(held, ends, segments, segments[n..], Republishing(record, segments[..n]))
  {
    assert segments[..n] + segments[n..] == segments;
  }

  lemma DrainedKeeps(s: State, record: Option<Payload>, limit: nat)
    requires Inv(s) && s.pc == Draining(record, limit)
    ensures Inv(Drained(s, record, limit))
  {
    var n := Removable(s.segments, s.ends, limit);
    DrainedSafe(s.readers, s.files.Keys, s.ends, s.segments, record, limit);
    if n == 0 {
      RelistedKeeps(s, s.(pc := Resume(record)));
    } else {
      DrainedListed(s.files.Keys, s.ends, s.segments, n, record);
      RelistedKeeps(s, s.(segments := s.segments[n..], pc := Republishing(record, s.segments[..n])));
    }
  }

  lemma RepublishedKeeps(s: State, record: Option<Payload>, removed: seq<nat>)
    requires Inv(s) && s.pc == Republishing(record, removed)
    ensures Inv(WriterStep(s))
  {
    ChainTail(s.files.Keys, s.ends, removed + s.segments, |removed|);
    assert (removed + s.segments)[|removed|..] == s.segments;
    RelistedKeeps(s, WriterStep(s));
  }

  lemma ScannedOut(s: State, record: Option<Payload>, through: Option<nat>)
    requires Inv(s) && s.pc == Scanning(record, {}, through)
    ensures Inv(WriterStep(s))
  {
    RelistedKeeps(s, WriterStep(s));
  }

  // ---- writing a record ---------------------------------------------------------------

  lemma StoredLonger(files: map<nat, bytes>, ends: map<nat, nat>, history: seq<Payload>, last: nat, b: bytes)
    requires Stored(files, ends, history) && last in files
    ensures Stored(files[last := files[last] + b], ends, history)
  {
    var files' := files[last := files[last] + b];
    forall c | c in files' ensures StoredAt(files', ends, history, c) {
      assert StoredAt(files, ends, history, c);
      if c == last {
        ExtendAt(files[last], b, 0, Image(history[last..ends[last]]));
      }
    }
  }

  lemma PendingLonger(records: seq<Payload>, a: bytes, b: bytes, c: bytes)
    requires a + b == c
    ensures Image(records) + a + b == Image(records) + c
  {
  }

  lemma WroteReaders(s: State, b: bytes, pc: WriterPc)
    requires ReadersOk(s) && Last(s.segments) in s.files
    ensures Wrote(s, b, pc).files.Keys == s.files.Keys && ReadersOk(Wrote(s, b, pc))
  {
    assert Wrote(s, b, pc).files.Keys == s.files.Keys;
  }

  lemma WroteKeeps(s: State, b: bytes, pc: WriterPc)
    requires Inv(s) && Pending(s.pc) + b == Pending(pc) && (pc.WritingBody? || pc.StoringEnd?)
    requires !s.pc.Publishing? && !s.pc.Republishing? && !s.pc.StoringNext?
    ensures Inv(Wrote(s, b, pc))
  {
    StoredLonger(s.files, s.ends, s.history, Last(s.segments), b);
    PendingLonger(s.history[Last(s.segments)..], Pending(s.pc), b, Pending(pc));
    WroteReaders(s, b, pc);
  }

  lemma StoredEarlier(files: map<nat, bytes>, ends: map<nat, nat>, history: seq<Payload>, last: nat, p: Payload, b: nat)
    requires StoredAt(files, ends, history, b) && b != last
    ensures StoredAt(files, ends[last := |history| + 1], history + [p], b)
  {
    assert (history + [p])[b..ends[b]] == history[b..ends[b]];
  }

  lemma ActiveImage(history: seq<Payload>, last: nat, p: Payload)
    requires last <= |history|
    ensures Image(history[last..]) + (LE32(|p|) + p) == Image((history + [p])[last..])
    ensures (history + [p])[last..] == (history + [p])[last..|history| + 1]
  {
    Appended(history[last..], p);
    assert (history + [p])[last..] == history[last..] + [p];
  }

  lemma EndedStored(files: map<nat, bytes>, ends: map<nat, nat>, segments: seq<nat>, history: seq<Payload>, p: Payload)
    requires Stored(files, ends, history) && Writing(files, ends, segments, history, StoringEnd(p))
    ensures var ends', history' := ends[Last(segments) := |history| + 1], history + [p];
            Stored(files, ends', history') && Writing(files, ends', segments, history', StoringNext)
  {
    var last := Last(segments);
    ActiveImage(history, last, p);
    assert files[last] == files[last] + [];
    forall b | b in files ensures StoredAt(files, ends[last := |history| + 1], history + [p], b) {
      if b != last {
        StoredEarlier(files, ends, history, last, p, b);
      } else {
        assert At(files[last], 0, files[last]);
      }
    }
  }

  lemma EndedListed(held: set<nat>, ends: map<nat, nat>, segments: seq<nat>, end: nat)
    requires Chained(held, ends, segments)
    ensures Chained(held, ends[Last(segments) := end], segments)
  {
    var ends' := ends[Last(segments) := end];
    forall i, j | 0 <= i < j < |segments| && j == i + 1 ensures Link(ends', segments[i], segments[j]) {
      ChainOrder(held, ends, segments, i, |segments| - 1);
      assert Link(ends, segments[i], segments[j]);
    }
  }

  lemma EndedReaders(s: State, p: Payload)
    requires Writing(s.files, s.ends, s.segments, s.history, s.pc) && ReadersOk(s)
    ensures ReadersOk(Ended(s, p))
  {
    assert (s.history + [p])[..|s.history|] == s.history;
    ReadersGrow(s, Ended(s, p));
  }

  lemma EndedKeeps(s: State, p: Payload)
    requires Inv(s) && s.pc == StoringEnd(p)
    ensures Inv(Ended(s, p))
  {
    EndedStored(s.files, s.ends, s.segments, s.history, p);
    EndedListed(s.files.Keys, s.ends, s.segments, |s.history| + 1);
    EndedReaders(s, p);
  }

  lemma NextKeeps(s: State)
    requires Inv(s) && s.pc.StoringNext?
    ensures Inv(WriterStep(s))
  {
    var s' := WriterStep(s);
    assert s'.history[..|s.history|] == s.history;
    ReadersGrow(s, s');
  }

  lemma AppendKeeps(s: State)
    requires Inv(s) && (s.pc.WritingSize? || s.pc.WritingBody? || s.pc.StoringEnd? || s.pc.StoringNext?)
    ensures Inv(WriterStep(s))
  {
    match s.pc
    case WritingSize(p) =>
      assert [] + LE32(|p|) == LE32(|p|);
      WroteKeeps(s, LE32(|p|), WritingBody(p));
    case WritingBody(p) => WroteKeeps(s, p, StoringEnd(p));
    case StoringEnd(p) => EndedKeeps(s, p);
    case StoringNext => NextKeeps(s);
  }

  lemma PublishKeeps(s: State)
    requires Inv(s) && (s.pc.Publishing? || s.pc.Marking?)
    ensures Inv(WriterStep(s))
  {
    RelistedKeeps(s, WriterStep(s));
  }

  lemma WriterKeeps(s: State)
    requires Inv(s)
    ensures Inv(WriterStep(s))
  {
    match s.pc
    case Idle =>
    case Rotating(p) => RotatedKeeps(s, p);
    case Publishing(_) => PublishKeeps(s);
    case Scanning(record, rest, through) =>
      if rest == {} {
        ScannedOut(s, record, through);
      }
    case Draining(record, limit) => DrainedKeeps(s, record, limit);
    case Republishing(record, removed) => RepublishedKeeps(s, record, removed);
    case Marking(_, _) => PublishKeeps(s);
    case _ => AppendKeeps(s);
  }

  // ---- steps of readers -----------------------------------------------------------------------

  lemma FrameOfAt(file: bytes, pos: nat, p: Payload)
    requires At(file, pos, Framed(p))
    ensures FrameOf(file, pos) == Some(p)
  {
    ReadFrame(file, pos, p);
  }

  lemma FrameIn(file: bytes, records: seq<Payload>, i: nat)
    requires At(file, 0, Image(records)) && i < |records|
    ensures FrameOf(file, Length(records[..i])) == Some(records[i])
    ensures Length(records[..i + 1]) == Length(records[..i]) + 4 + |records[i]|
  {
    FrameAt(file, records, i);
    FrameOfAt(file, Length(records[..i]), records[i]);
    LengthNext(records, i);
  }

  lemma Slices(history: seq<Payload>, a: nat, b: nat, c: nat)
    requires a <= b < c <= |history|
    ensures history[a..c][..b - a] == history[a..b] && history[a..c][b - a] == history[b]
    ensures history[a..c][..b - a + 1] == history[a..b + 1]
  {
  }

  /** Reading at a cursor short of the end gives the record at its offset. */
  lemma FrameRead(s: State, c: Cursor)
    requires Stored(s.files, s.ends, s.history) && CursorOk(s.files.Keys, s.ends, s.history, c) && c.logical < s.ends[c.base]
    ensures FrameOf(s.files[c.base], c.pos) == Some(s.history[c.logical])
    ensures CursorOk(s.files.Keys, s.ends, s.history, Cursor(c.base, c.pos + 4 + |s.history[c.logical]|, c.logical + 1))
  {
    assert StoredAt(s.files, s.ends, s.history, c.base);
    Slices(s.history, c.base, c.logical, s.ends[c.base]);
    FrameIn(s.files[c.base], s.history[c.base..s.ends[c.base]], c.logical - c.base);
  }

  lemma GotMore(history: seq<Payload>, from: nat, volatile: nat, got: seq<Payload>)
    requires from + |got| == volatile < |history| && (got == [] || got == history[from..volatile])
    ensures got + [history[volatile]] == history[from..volatile + 1]
  {
  }

  lemma ReadKeeps(s: State, r: Reader)
    requires Stored(s.files, s.ends, s.history) && s.segments != []
    requires ReaderOk(s.files.Keys, s.ends, s.next, s.history, Last(s.segments), r) && r.pc.Reading?
    ensures ReaderOk(s.files.Keys, s.ends, s.next, s.history, Last(s.segments), ReaderStep(s, r))
    ensures ReaderStep(s, r).got == r.got + [s.history[r.volatile]] && ReaderStep(s, r).volatile == r.volatile + 1
  {
    FrameRead(s, r.current.value);
    GotMore(s.history, r.from, r.volatile, r.got);
  }

  lemma SkipKeeps(s: State, r: Reader)
    requires Stored(s.files, s.ends, s.history) && s.segments != []
    requires ReaderOk(s.files.Keys, s.ends, s.next, s.history, Last(s.segments), r) && r.pc.Skipping?
    ensures ReaderOk(s.files.Keys, s.ends, s.next, s.history, Last(s.segments), ReaderStep(s, r))
  {
    if r.pc.i < r.volatile {
      FrameRead(s, Cursor(r.pc.base, r.pc.pos, r.pc.i));
    }
  }

  /** The published list covers every offset from the oldest committed one to the tail. */
  lemma PublishedCovers(s: State, offset: nat)
    requires Inv(s) && s.segments[0] <= offset < s.next
    ensures SnapshotOk(s.files.Keys, s.ends, Last(s.segments), s.published, offset)
  {
    var full := Full(s.segments, s.pc);
    if s.pc.Publishing? {
      assert Link(s.ends, full[|full| - 2], full[|full| - 1]);
      ChainFront(s.files.Keys, s.ends, full);
    }
    if s.pc.Republishing? && s.pc.removed != [] {
      ChainOrder(s.files.Keys, s.ends, full, 0, |s.pc.removed|);
    }
  }

  lemma ChainFront(held: set<nat>, ends: map<nat, nat>, list: seq<nat>)
    requires Chained(held, ends, list) && |list| > 1
    ensures Chained(held, ends, list[..|list| - 1])
  {
    var front := list[..|list| - 1];
    forall i, j | 0 <= i < j < |front| && j == i + 1 ensures Link(ends, front[i], front[j]) {
      assert Link(ends, list[i], list[j]);
    }
  }

  /** The search for a segment never runs off the end of the list. */
  lemma FindKeeps(s: State, r: Reader)
    requires s.segments != []
    requires ReaderOk(s.files.Keys, s.ends, s.next, s.history, Last(s.segments), r) && r.pc.Finding?
    ensures ReaderOk(s.files.Keys, s.ends, s.next, s.history, Last(s.segments), ReaderStep(s, r))
  {
    var snapshot, k := r.pc.snapshot, r.pc.k;
    assert snapshot[k] in snapshot;
    if k + 1 < |snapshot| {
      assert Link(s.ends, snapshot[k], snapshot[k + 1]);
    }
  }

  lemma OtherKeeps(s: State, r: Reader)
    requires s.segments != [] && forall b :: b in s.ends ==> s.ends[b] <= |s.history|
    requires ReaderOk(s.files.Keys, s.ends, s.next, s.history, Last(s.segments), r)
    requires r.pc.Ready? || r.pc.Exhausted? || r.pc.Positioning? || r.pc.Opening?
    ensures ReaderOk(s.files.Keys, s.ends, s.next, s.history, Last(s.segments), ReaderStep(s, r))
  {
    if r.pc.Opening? {
      assert s.history[r.pc.base..r.pc.base] == [];
    }
  }

  lemma ReaderKeeps(s: State, r: Reader)
    requires Inv(s) && ReaderOk(s.files.Keys, s.ends, s.next, s.history, Last(s.segments), r) && s.segments[0] <= r.committed
    ensures ReaderOk(s.files.Keys, s.ends, s.next, s.history, Last(s.segments), ReaderStep(s, r))
    ensures ReaderStep(s, r).committed == r.committed
  {
    match r.pc
    case Skipping(_, _, _) => SkipKeeps(s, r);
    case Reading => ReadKeeps(s, r);
    case Finding(_, _) => FindKeeps(s, r);
    case Snapshotting => PublishedCovers(s, r.volatile);
    case _ => OtherKeeps(s, r);
  }

  // ---- steps on the consumers -----------------------------------------------------------------

  /** One reader changes; its committed cursor does not move back. */
  lemma ReaderReplaced(s: State, name: Name, r: Reader)
    requires Inv(s) && name in s.readers && s.readers[name].committed <= r.committed
    requires ReaderOk(s.files.Keys, s.ends, s.next, s.history, Last(s.segments), r)
    ensures Inv(s.(readers := s.readers[name := r]))
  {
    ReplacedSafe(s.readers, s.segments, s.pc, name, r);
  }

  lemma ReplacedSafe(readers: map<Name, Reader>, segments: seq<nat>, pc: WriterPc, name: Name, r: Reader)
    requires Safe(readers, segments, pc) && name in readers && readers[name].committed <= r.committed
    ensures Safe(readers[name := r], segments, pc)
  {
    assert readers[name := r].Keys == readers.Keys;
  }

  lemma TailBound(s: State)
    requires Inv(s)
    ensures s.segments[0] <= Last(s.segments) <= s.next
  {
    var full := Full(s.segments, s.pc);
    if |s.segments| > 1 {
      ChainOrder(s.files.Keys, s.ends, full, |full| - |s.segments|, |full| - 1);
    }
  }

  function Newcomer(next: nat): Reader {
    Reader(next, next, None, Ready, next, [])
  }

  lemma RegisteredSafe(readers: map<Name, Reader>, segments: seq<nat>, pc: WriterPc, name: Name, next: nat)
    requires Safe(readers, segments, pc) && !pc.Scanning? && segments[0] <= Last(segments) <= next
    ensures Safe(readers[name := Newcomer(next)], segments, pc)
  {
  }

  lemma RegisteredReaders(s: State, name: Name)
    requires ReadersOk(s)
    ensures ReadersOk(s.(readers := s.readers[name := Newcomer(s.next)]))
  {
  }

  lemma RegisterKeeps(s: State, name: Name)
    requires Inv(s)
    ensures Inv(Step(s, Register(name)))
  {
    if Step(s, Register(name)) != s {
      TailBound(s);
      RegisteredSafe(s.readers, s.segments, s.pc, name, s.next);
      RegisteredReaders(s, name);
    }
  }

  lemma UnregisterKeeps(s: State, name: Name)
    requires Inv(s)
    ensures Inv(Step(s, Unregister(name)))
  {
  }

  lemma ScanKeeps(s: State, name: Name)
    requires Inv(s)
    ensures Inv(Scanned(s, name))
  {
    var s' := Scanned(s, name);
    if s' != s {
      RelistedKeeps(s, s');
    }
  }

  // ---- files go only when nothing refers to them ----------------------------------------------------

  lemma ReapedReader(held: set<nat>, ends: map<nat, nat>, next: nat, history: seq<Payload>, last: nat, r: Reader, base: nat)
    requires ReaderOk(held, ends, next, history, last, r) && base !in Held(r)
    ensures ReaderOk(held - {base}, ends, next, history, last, r)
  {
    if r.pc.Finding? || r.pc.Opening? {
      forall b | b in r.pc.snapshot ensures b != base {
        assert b in Held(r);
      }
    }
  }

  lemma ReapKeeps(s: State, base: nat)
    requires Inv(s)
    ensures Inv(Reaped(s, base))
  {
    var s' := Reaped(s, base);
    if s' != s {
      assert s'.files.Keys == s.files.Keys - {base};
      forall b | b in s'.files ensures StoredAt(s'.files, s'.ends, s'.history, b) {
        assert StoredAt(s.files, s.ends, s.history, b);
      }
      forall c | c in s'.readers ensures ReaderOk(s'.files.Keys, s.ends, s.next, s.history, Last(s.segments), s'.readers[c]) {
        ReapedReader(s.files.Keys, s.ends, s.next, s.history, Last(s.segments), s.readers[c], base);
      }
    }
  }

  // ---- every run ---------------------------------------------------------------------------------------

  lemma StepKeeps(s: State, a: Action)
    requires Inv(s)
    ensures Inv(Step(s, a))
  {
    match a
    case Append(p) => BegunKeeps(s, p);
    case Compact => BeginKeeps(s);
    case Write => WriterKeeps(s);
    case Scan(name) => ScanKeeps(s, name);
    case Register(name) => RegisterKeeps(s, name);
    case Unregister(name) => UnregisterKeeps(s, name);
    case Reap(base) => ReapKeeps(s, base);
    case Commit(name) =>
      if Step(s, a) != s {
        ReaderReplaced(s, name, s.readers[name].(committed := s.readers[name].volatile));
      }
    case Seek(name, offset) =>
      if Step(s, a) != s {
        ReaderReplaced(s, name, Moved(s.readers[name], offset));
      }
    case Reset(name) =>
      if Step(s, a) != s {
        ReaderReplaced(s, name, Moved(s.readers[name], s.readers[name].committed));
      }
    case Read(name) =>
      if name in s.readers {
        ReaderKeeps(s, s.readers[name]);
        ReaderReplaced(s, name, ReaderStep(s, s.readers[name]));
      }
  }

  lemma InitialOk(maxBytes: nat)
    ensures Inv(Initial(maxBytes))
  {
    var s := Initial(maxBytes);
    assert s.history[0..0] == [] == s.history[0..];
    assert LE32(MAGIC) + [] == LE32(MAGIC);
    assert StoredAt(s.files, s.ends, s.history, 0);
  }

  lemma {:induction false} RunKeeps(maxBytes: nat, actions: seq<Action>)
    ensures Inv(Run(maxBytes, actions))
  {
    if actions == [] {
      InitialOk(maxBytes);
    } else {
      RunKeeps(maxBytes, actions[..|actions| - 1]);
      StepKeeps(Run(maxBytes, actions[..|actions| - 1]), actions[|actions| - 1]);
    }
  }

  /**
   In every state of every run, each reader has received exactly the consecutive records from where
   it last placed its cursor; a search for its segment will succeed; the file of every segment it
   holds exists; and a read about to be taken delivers the record at its cursor.
   */
  lemma ReadersServed(maxBytes: nat, actions: seq<Action>, name: Name)
    requires name in Run(maxBytes, actions).readers
    ensures var s := Run(maxBytes, actions);
            var r := s.readers[name];
            && r.committed <= r.volatile == r.from + |r.got| && (r.got != [] ==> r.volatile <= |s.history| && r.got == s.history[r.from..r.volatile])
            && (r.pc.Finding? ==> exists k :: r.pc.k <= k < |r.pc.snapshot| && Contains(s, r.pc.snapshot[k], r.volatile))
            && Held(r) <= s.files.Keys
            && (r.pc.Reading? ==> r.volatile < |s.history| && ReaderStep(s, r).got == r.got + [s.history[r.volatile]])
  {
    RunKeeps(maxBytes, actions);
    var s := Run(maxBytes, actions);
    var r := s.readers[name];
    if r.pc.Finding? {
      FindSucceeds(s.files.Keys, s.ends, r.pc.snapshot, r.pc.k, r.volatile);
    }
    if r.pc.Reading? {
      ReadKeeps(s, r);
    }
  }

  predicate Contains(s: State, base: nat, offset: nat) {
    base in s.ends && base <= offset < s.ends[base]
  }

  lemma {:induction false} FindSucceeds(held: set<nat>, ends: map<nat, nat>, snapshot: seq<nat>, k: nat, offset: nat)
    requires Chained(held, ends, snapshot) && k < |snapshot| && snapshot[k] <= offset < ends[Last(snapshot)]
    ensures exists j :: k <= j < |snapshot| && snapshot[j] in ends && snapshot[j] <= offset < ends[snapshot[j]]
    decreases |snapshot| - k
  {
    assert snapshot[k] in snapshot;
    if offset < ends[snapshot[k]] {
      assert k <= k < |snapshot|;
    } else {
      assert Link(ends, snapshot[k], snapshot[k + 1]);
      FindSucceeds(held, ends, snapshot, k + 1, offset);
    }
  }
}
