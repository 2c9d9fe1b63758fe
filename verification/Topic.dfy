/** The topic as its single writer sees it: segments, consumers and counters. */
module Topics {
  import opened Base
  import opened Bytes
  import opened TopicFiles

  /** A segment file with its first offset, the offset after its last record and its length. */
  datatype Segment = Segment(base: nat, end: nat, byteLen: nat, file: bytes)

  datatype Cursor = Cursor(committed: nat, volatile: nat, active: bool)

  datatype Refusal = AlreadyExists

  /** The segment holds its slice of the history, and only a segment of one record may be oversized. */
  predicate Holds(s: Segment, history: seq<Payload>, limit: nat) {
    && s.base <= s.end <= |history| && s.file == Image(history[s.base..s.end]) && s.byteLen == |s.file|
    && (s.end - s.base >= 2 ==> s.byteLen <= limit)
  }

  predicate Meets(a: Segment, b: Segment) {
    a.base < a.end == b.base
  }

  /** Neighbours meet, and only the last segment may be empty. */
  ghost predicate Tiles(segments: seq<Segment>) {
    forall i, j :: 0 <= i < j < |segments| && j == i + 1 ==> Meets(segments[i], segments[j])
  }

  ghost predicate AllHold(segments: seq<Segment>, history: seq<Payload>, limit: nat) {
    forall i :: 0 <= i < |segments| ==> Holds(segments[i], history, limit)
  }

  function Total(segments: seq<Segment>): nat {
    if segments == [] then 0 else segments[0].byteLen + Total(segments[1..])
  }

  lemma {:induction false} TotalSplit(a: seq<Segment>, b: seq<Segment>)
    ensures Total(a + b) == Total(a) + Total(b)
  {
    if a == [] {
      assert a + b == b;
    } else {
      TotalSplit(a[1..], b);
      assert (a + b)[1..] == a[1..] + b;
    }
  }

  lemma {:induction false} TilesOrder(segments: seq<Segment>, i: nat, j: nat)
    requires Tiles(segments) && i < j < |segments|
    ensures segments[i].end <= segments[j].base && segments[i].base < segments[j].base
    decreases j
  {
    assert Meets(segments[j - 1], segments[j]);
    if i < j - 1 {
      TilesOrder(segments, i, j - 1);
    }
  }

  lemma HoldsLonger(s: Segment, history: seq<Payload>, p: Payload, limit: nat)
    requires Holds(s, history, limit)
    ensures Holds(s, history + [p], limit)
  {
    assert (history + [p])[s.base..s.end] == history[s.base..s.end];
  }

  /** A record appended to the last segment. */
  function Extended(s: Segment, p: Payload): Segment {
    Segment(s.base, s.end + 1, s.byteLen + 4 + |p|, s.file + Framed(p))
  }

  /** An empty segment takes any record, another one what its limit allows. */
  predicate Fitting(s: Segment, p: Payload, limit: nat) {
    s.base == s.end || s.byteLen + 4 + |p| <= limit
  }

  lemma HoldsExtended(s: Segment, history: seq<Payload>, p: Payload, limit: nat)
    requires Holds(s, history, limit) && s.end == |history| && (s.base == s.end || s.byteLen + 4 + |p| <= limit)
    ensures Holds(Extended(s, p), history + [p], limit)
  {
    assert (history + [p])[s.base..s.end + 1] == history[s.base..s.end] + [p];
    Appended(history[s.base..s.end], p);
  }

  /** `n` of the oldest segments, and no more, end at or before `through`; the last segment never counts. */
  ghost predicate Leading(segments: seq<Segment>, through: nat, n: nat) {
    && n < |segments| && (forall i :: 0 <= i < n ==> segments[i].end <= through)
    && (n < |segments| - 1 ==> through < segments[n].end)
  }

  method Removable(segments: seq<Segment>, through: nat) returns (n: nat)
    requires segments != [] && Tiles(segments)
    ensures Leading(segments, through, n) && (n > 0 ==> segments[n].base <= through)
  {
    n := 0;
    while n < |segments| - 1 && segments[n].end <= through
      invariant n < |segments| && (n > 0 ==> segments[n].base <= through)
      invariant forall i :: 0 <= i < n ==> segments[i].end <= through
    {
      assert Meets(segments[n], segments[n + 1]);
      n := n + 1;
    }
  }

  /** Records and bytes of the first `n` segments. */
  method Tally(segments: seq<Segment>, n: nat) returns (records: nat, size: nat)
    requires n < |segments| && Tiles(segments)
    ensures segments[0].base <= segments[n].base && records == segments[n].base - segments[0].base && size == Total(segments[..n])
  {
    records, size := 0, 0;
    for i := 0 to n
      invariant segments[0].base <= segments[i].base && records == segments[i].base - segments[0].base && size == Total(segments[..i])
    {
      TotalSplit(segments[..i], [segments[i]]);
      assert segments[..i + 1] == segments[..i] + [segments[i]];
      assert Meets(segments[i], segments[i + 1]);
      records, size := records + (segments[i].end - segments[i].base), size + segments[i].byteLen;
    }
  }

  /** The least of the committed cursors. */
  ghost predicate IsLeast(consumers: map<string, Cursor>, m: nat) {
    (exists c :: c in consumers && consumers[c].committed == m) && forall c :: c in consumers ==> m <= consumers[c].committed
  }

  /** The least committed cursor, if there is a consumer. */
  method Least(consumers: map<string, Cursor>) returns (r: Option<nat>)
    ensures r.None? <==> consumers == map[]
    ensures r.Some? ==> IsLeast(consumers, r.value)
  {
    r := None;
    var rest := consumers.Keys;
    while rest != {}
      invariant rest <= consumers.Keys && (r.None? <==> rest == consumers.Keys)
      invariant r.Some? ==> forall c :: c in consumers && c !in rest ==> r.value <= consumers[c].committed
      invariant r.Some? ==> exists c :: c in consumers && consumers[c].committed == r.value
      decreases rest
    {
      var c :| c in rest;
      if r.None? || consumers[c].committed < r.value {
        r := Some(consumers[c].committed);
      }
      rest := rest - {c};
    }
    assert consumers == map[] <==> consumers.Keys == {};
  }

  /** The segments after a compaction: without those that every consumer has committed past, and no others. */
  ghost predicate Compacted(segments: seq<Segment>, consumers: map<string, Cursor>, after: seq<Segment>) {
    if consumers == map[] then after == segments
    else exists m: nat, n: nat :: IsLeast(consumers, m) && Leading(segments, m, n) && after == segments[n..]
  }

  lemma LeadingOnce(segments: seq<Segment>, m: nat, n: nat, q: nat)
    requires Leading(segments, m, n) && Leading(segments, m, q)
    ensures n == q
  {
  }

  /** What a compaction leaves is determined. */
  lemma CompactedOnce(segments: seq<Segment>, consumers: map<string, Cursor>, a: seq<Segment>, b: seq<Segment>)
    requires Compacted(segments, consumers, a) && Compacted(segments, consumers, b)
    ensures a == b
  {
    if consumers != map[] {
      var m: nat, n: nat :| IsLeast(consumers, m) && Leading(segments, m, n) && a == segments[n..];
      var p: nat, q: nat :| IsLeast(consumers, p) && Leading(segments, p, q) && b == segments[q..];
      LeadingOnce(segments, m, n, q);
    }
  }

  function Blank(offset: nat): Segment {
    Segment(offset, offset, HEADER, LE32(MAGIC))
  }

  /** A record that fits extends the last segment and nothing else happens; another one starts a segment of its own, after a compaction. */
  ghost predicate AppendedTo(was: seq<Segment>, consumers: map<string, Cursor>, offset: nat, p: Payload, limit: nat, now: seq<Segment>) {
    && was != [] && now != []
    && var m, n := |was| - 1, |now| - 1;
       if Fitting(was[m], p, limit) then now == was[..m] + [Extended(was[m], p)]
       else now[n] == Extended(Blank(offset), p) && Compacted(was + [Blank(offset)], consumers, now[..n] + [Blank(offset)])
  }

  lemma AppendRecorded(was: seq<Segment>, consumers: map<string, Cursor>, offset: nat, p: Payload, limit: nat, ready: seq<Segment>, now: seq<Segment>)
    requires was != [] && ready != [] && now == ready[..|ready| - 1] + [Extended(ready[|ready| - 1], p)]
    requires if Fitting(was[|was| - 1], p, limit) then ready == was
             else ready[|ready| - 1] == Blank(offset) && Compacted(was + [Blank(offset)], consumers, ready)
    ensures AppendedTo(was, consumers, offset, p, limit, now)
  {
    assert ready[..|ready| - 1] + [ready[|ready| - 1]] == ready;
    assert now[..|now| - 1] == ready[..|ready| - 1];
  }

  /** The retained segments tile the offsets from `earliest` to `next` and equal that slice of the history. */
  ghost predicate Log(segments: seq<Segment>, earliest: nat, next: nat, records: nat, retained: nat, history: seq<Payload>, limit: nat) {
    && segments != [] && Tiles(segments) && AllHold(segments, history, limit)
    && segments[0].base == earliest && segments[|segments| - 1].end == next == |history|
    && records == next - earliest && retained == Total(segments)
  }

  lemma TotalDropped(segments: seq<Segment>, n: nat)
    requires n <= |segments|
    ensures Total(segments[..n]) + Total(segments[n..]) == Total(segments)
  {
    TotalSplit(segments[..n], segments[n..]);
    assert segments[..n] + segments[n..] == segments;
  }

  lemma TilesDropped(segments: seq<Segment>, n: nat)
    requires Tiles(segments) && n < |segments|
    ensures Tiles(segments[n..])
  {
    var after := segments[n..];
    forall i, j | 0 <= i < j < |after| && j == i + 1 ensures Meets(after[i], after[j]) {
      assert Meets(segments[n + i], segments[n + j]);
    }
  }

  lemma BaseBetween(segments: seq<Segment>, n: nat)
    requires Tiles(segments) && n < |segments| && segments[|segments| - 1].base <= segments[|segments| - 1].end
    ensures segments[0].base <= segments[n].base <= segments[|segments| - 1].end
  {
    if n > 0 {
      TilesOrder(segments, 0, n);
    }
    if n < |segments| - 1 {
      TilesOrder(segments, n, |segments| - 1);
    }
  }

  lemma LogDropped(segments: seq<Segment>, earliest: nat, next: nat, records: nat, retained: nat, history: seq<Payload>, limit: nat,
                   n: nat)
    requires Log(segments, earliest, next, records, retained, history, limit) && n < |segments|
    ensures earliest <= segments[n].base <= next && Total(segments[..n]) <= retained
    ensures Log(segments[n..], segments[n].base, next, next - segments[n].base, retained - Total(segments[..n]), history, limit)
  {
    assert Holds(segments[|segments| - 1], history, limit);
    TotalDropped(segments, n);
    TilesDropped(segments, n);
    BaseBetween(segments, n);
    assert AllHold(segments[n..], history, limit) by {
      forall i | 0 <= i < |segments[n..]| ensures Holds(segments[n..][i], history, limit) {
        assert Holds(segments[n + i], history, limit);
      }
    }
  }

  lemma AllHoldWritten(segments: seq<Segment>, history: seq<Payload>, limit: nat, p: Payload)
    requires segments != [] && AllHold(segments, history, limit)
    requires var last := segments[|segments| - 1]; last.end == |history| && (last.base == last.end || last.byteLen + 4 + |p| <= limit)
    ensures var n := |segments| - 1; AllHold(segments[..n] + [Extended(segments[n], p)], history + [p], limit)
  {
    var n := |segments| - 1;
    HoldsExtended(segments[n], history, p, limit);
    forall i | 0 <= i < n ensures Holds(segments[i], history + [p], limit) {
      HoldsLonger(segments[i], history, p, limit);
    }
  }

  lemma TilesWritten(segments: seq<Segment>, p: Payload)
    requires segments != [] && Tiles(segments)
    ensures var n := |segments| - 1; Tiles(segments[..n] + [Extended(segments[n], p)])
  {
    var n := |segments| - 1;
    var after := segments[..n] + [Extended(segments[n], p)];
    forall i, j | 0 <= i < j < |after| && j == i + 1 ensures Meets(after[i], after[j]) {
      assert Meets(segments[i], segments[j]);
    }
  }

  lemma TotalReplaced(segments: seq<Segment>, s: Segment)
    requires segments != []
    ensures var n := |segments| - 1; Total(segments[..n] + [s]) + segments[n].byteLen == Total(segments) + s.byteLen
  {
    var n := |segments| - 1;
    assert segments == segments[..n] + [segments[n]];
    TotalSplit(segments[..n], [segments[n]]);
    TotalSplit(segments[..n], [s]);
  }

  lemma LogWritten(segments: seq<Segment>, earliest: nat, next: nat, records: nat, retained: nat, history: seq<Payload>, limit: nat,
                   p: Payload)
    requires Log(segments, earliest, next, records, retained, history, limit)
    requires var last := segments[|segments| - 1]; last.base == last.end || last.byteLen + 4 + |p| <= limit
    ensures var n := |segments| - 1;
            Log(segments[..n] + [Extended(segments[n], p)], earliest, next + 1, records + 1, retained + 4 + |p|, history + [p], limit)
  {
    AllHoldWritten(segments, history, limit, p);
    TilesWritten(segments, p);
    TotalReplaced(segments, Extended(segments[|segments| - 1], p));
  }

  lemma LogRotated(segments: seq<Segment>, earliest: nat, next: nat, records: nat, retained: nat, history: seq<Payload>, limit: nat)
    requires Log(segments, earliest, next, records, retained, history, limit) && segments[|segments| - 1].base < next
    ensures Log(segments + [Segment(next, next, HEADER, LE32(MAGIC))], earliest, next, records, retained + HEADER, history, limit)
  {
    var segment := Segment(next, next, HEADER, LE32(MAGIC));
    assert history[next..next] == [];
    assert Holds(segment, history, limit);
    TotalSplit(segments, [segment]);
  }

  predicate Covers(s: Segment, offset: nat) {
    s.base <= offset < s.end
  }

  ghost predicate Covered(segments: seq<Segment>, offset: nat) {
    exists i :: 0 <= i < |segments| && Covers(segments[i], offset)
  }

  /** Every offset from the earliest to the tail is in a retained segment. */
  lemma {:induction false} Retained(segments: seq<Segment>, offset: nat)
    requires segments != [] && Tiles(segments) && segments[0].base <= offset < segments[|segments| - 1].end
    ensures Covered(segments, offset)
    decreases |segments|
  {
    var n := |segments| - 1;
    if segments[n].base <= offset {
      assert Covers(segments[n], offset);
    } else {
      assert Meets(segments[n - 1], segments[n]);
      TilesFront(segments);
      Retained(segments[..n], offset);
      var i :| 0 <= i < n && Covers(segments[..n][i], offset);
      assert Covers(segments[i], offset);
    }
  }

  lemma TilesFront(segments: seq<Segment>)
    requires segments != [] && Tiles(segments)
    ensures Tiles(segments[..|segments| - 1])
  {
    var front := segments[..|segments| - 1];
    forall i, j | 0 <= i < j < |front| && j == i + 1 ensures Meets(front[i], front[j]) {
      assert Meets(segments[i], segments[j]);
    }
  }

  /** The segment holding an offset; one exists for every offset retained. */
  method Find(segments: seq<Segment>, offset: nat) returns (i: nat)
    requires segments != [] && Tiles(segments) && segments[0].base <= offset < segments[|segments| - 1].end
    ensures i < |segments| && segments[i].base <= offset < segments[i].end
  {
    i := 0;
    while !(segments[i].base <= offset < segments[i].end)
      invariant i < |segments| && segments[i].base <= offset
      decreases |segments| - i
    {
      assert i < |segments| - 1 ==> Meets(segments[i], segments[i + 1]);
      i := i + 1;
    }
  }

  /** The position of a record in a segment, skipping one record at a time. */
  method Skip(file: bytes, count: nat, ghost records: seq<Payload>) returns (pos: nat)
    requires file == Image(records) && count <= |records|
    ensures pos == Length(records[..count])
  {
    pos := HEADER;
    assert At(file, 0, Image(records));
    for i := 0 to count
      invariant pos == Length(records[..i])
    {
      FrameAt(file, records, i);
      ReadFrame(file, pos, records[i]);
      LengthNext(records, i);
      pos := pos + 4 + Word(file[pos..pos + 4]);
    }
  }

  method ReadAt(file: bytes, pos: nat, ghost p: Payload) returns (r: Payload)
    requires At(file, pos, Framed(p))
    ensures r == p
  {
    ReadFrame(file, pos, p);
    r := file[pos + 4..pos + 4 + Word(file[pos..pos + 4])];
  }

  /** Reads one record of a segment. */
  method Read(s: Segment, offset: nat, ghost history: seq<Payload>, ghost limit: nat) returns (p: Payload)
    requires Holds(s, history, limit) && s.base <= offset < s.end
    ensures p == history[offset]
  {
    ghost var records := history[s.base..s.end];
    var pos := Skip(s.file, offset - s.base, records);
    assert At(s.file, 0, Image(records));
    FrameAt(s.file, records, offset - s.base);
    p := ReadAt(s.file, pos, records[offset - s.base]);
  }

  // ---- reopening ------------------------------------------------------------------------

  /** A segment file as found in the directory; its name gives the base offset. */
  datatype Found = Found(base: nat, file: bytes)

  predicate Marked(f: Found) {
    |f.file| >= HEADER && Word(f.file[..4]) == MAGIC
  }

  /** The file is the whole of its slice of the history. */
  predicate Whole(f: Found, end: nat, history: seq<Payload>, limit: nat) {
    f.base < end && Holds(Segment(f.base, end, |f.file|, f.file), history, limit)
  }

  /** The directory of a topic whose active file may have lost its end. */
  ghost predicate OnDisk(files: seq<Found>, history: seq<Payload>, limit: nat) {
    && files != []
    && (forall i :: 0 <= i < |files| - 1 ==> Whole(files[i], files[i + 1].base, history, limit))
    && var last := files[|files| - 1];
       && last.base <= |history| && Cut(last.file, history[last.base..])
       && (|history| - last.base >= 2 ==> Length(history[last.base..]) <= limit)
  }

  lemma WholeMarked(f: Found, end: nat, history: seq<Payload>, limit: nat)
    requires Whole(f, end, history, limit)
    ensures Marked(f)
  {
    var records := history[f.base..end];
    ImageLength(records);
    WholeCut(records);
    CutMagic(f.file, records);
  }

  /** Every file of such a directory passes the check of its magic number. */
  lemma OnDiskMarked(files: seq<Found>, history: seq<Payload>, limit: nat, i: nat)
    requires OnDisk(files, history, limit) && i < |files|
    ensures Marked(files[i])
  {
    if i < |files| - 1 {
      WholeMarked(files[i], files[i + 1].base, history, limit);
    } else {
      CutMagic(files[i].file, history[files[i].base..]);
    }
  }

  lemma HoldsShorter(s: Segment, history: seq<Payload>, k: nat, limit: nat)
    requires Holds(s, history, limit) && s.end <= k <= |history|
    ensures Holds(s, history[..k], limit)
  {
    assert history[..k][s.base..s.end] == history[s.base..s.end];
  }

  lemma ActiveHolds(f: Found, history: seq<Payload>, n: nat, limit: nat)
    requires f.base <= |history| && Cut(f.file, history[f.base..]) && n <= |history| - f.base
    requires |history| - f.base >= 2 ==> Length(history[f.base..]) <= limit
    requires Length(history[f.base..][..n]) <= |f.file| && f.file[..Length(history[f.base..][..n])] == Image(history[f.base..][..n])
    ensures var len := Length(history[f.base..][..n]);
            Holds(Segment(f.base, f.base + n, len, f.file[..len]), history[..f.base + n], limit)
  {
    var records := history[f.base..];
    assert history[..f.base + n][f.base..f.base + n] == records[..n];
    LengthMonotone(records, n, |records|);
    assert records[..|records|] == records;
  }

  function Closed(files: seq<Found>, i: nat): Segment
    requires i < |files| - 1
  {
    Segment(files[i].base, files[i + 1].base, |files[i].file|, files[i].file)
  }

  /** The closed segments: each ends where the next file begins. */
  method CloseAll(files: seq<Found>) returns (segments: seq<Segment>)
    requires files != []
    ensures |segments| == |files| - 1 && forall i :: 0 <= i < |segments| ==> segments[i] == Closed(files, i)
  {
    segments := [];
    for i := 0 to |files| - 1
      invariant |segments| == i && forall j :: 0 <= j < i ==> segments[j] == Closed(files, j)
    {
      segments := segments + [Closed(files, i)];
    }
  }

  lemma ClosedHold(files: seq<Found>, segments: seq<Segment>, history: seq<Payload>, limit: nat)
    requires OnDisk(files, history, limit)
    requires |segments| == |files| - 1 && forall i :: 0 <= i < |segments| ==> segments[i] == Closed(files, i)
    ensures forall i :: 0 <= i < |segments| ==> segments[i].base < segments[i].end && Holds(segments[i], history, limit)
    ensures Tiles(segments)
  {
    forall i | 0 <= i < |segments| ensures segments[i].base < segments[i].end && Holds(segments[i], history, limit) {
      assert Whole(files[i], files[i + 1].base, history, limit);
    }
  }

  function Active(f: Found, end: nat, len: nat): Segment
    requires len <= |f.file|
  {
    Segment(f.base, end, len, f.file[..len])
  }

  lemma LoadedTiles(files: seq<Found>, closed: seq<Segment>, active: Segment)
    requires files != [] && Tiles(closed) && |closed| == |files| - 1 && active.base == files[|files| - 1].base
    requires forall i :: 0 <= i < |closed| ==> closed[i] == Closed(files, i) && closed[i].base < closed[i].end
    ensures Tiles(closed + [active])
  {
    var segments := closed + [active];
    forall i, j | 0 <= i < j < |segments| && j == i + 1 ensures Meets(segments[i], segments[j]) {
      if j < |closed| {
        assert Meets(closed[i], closed[j]);
      }
    }
  }

  /** What is reopened is the history up to the last complete record. */
  lemma Loaded(files: seq<Found>, closed: seq<Segment>, active: Segment, history: seq<Payload>, n: nat, len: nat, limit: nat)
    requires OnDisk(files, history, limit) && |closed| == |files| - 1 && forall i :: 0 <= i < |closed| ==> closed[i] == Closed(files, i)
    requires var last := files[|files| - 1];
             && n <= |history| - last.base && len == Length(history[last.base..][..n]) <= |last.file|
             && last.file[..len] == Image(history[last.base..][..n]) && active == Active(last, last.base + n, len)
    ensures var segments := closed + [active];
            && files[0].base <= active.end <= |history|
            && Log(segments, files[0].base, active.end, active.end - files[0].base, Total(segments), history[..active.end], limit)
  {
    ClosedHold(files, closed, history, limit);
    ActiveHolds(files[|files| - 1], history, n, limit);
    LoadedLog(files, closed, active, history, active.end, limit);
  }

  lemma LoadedLog(files: seq<Found>, closed: seq<Segment>, active: Segment, history: seq<Payload>, k: nat, limit: nat)
    requires files != [] && |closed| == |files| - 1 && forall i :: 0 <= i < |closed| ==> closed[i] == Closed(files, i)
    requires forall i :: 0 <= i < |closed| ==> closed[i].base < closed[i].end && Holds(closed[i], history, limit)
    requires Tiles(closed) && active.base == files[|files| - 1].base <= active.end == k <= |history| && Holds(active, history[..k], limit)
    ensures var segments := closed + [active];
            files[0].base <= k && Log(segments, files[0].base, k, k - files[0].base, Total(segments), history[..k], limit)
    ensures files[0].base <= active.base
  {
    var segments := closed + [active];
    LoadedTiles(files, closed, active);
    if |closed| > 0 {
      TilesOrder(segments, 0, |closed|);
      assert segments[0] == Closed(files, 0);
    }
    LoadedHold(closed, active, history, k, limit);
  }

  lemma LoadedHold(closed: seq<Segment>, active: Segment, history: seq<Payload>, k: nat, limit: nat)
    requires active.base <= k <= |history| && Tiles(closed + [active]) && Holds(active, history[..k], limit)
    requires forall i :: 0 <= i < |closed| ==> Holds(closed[i], history, limit)
    ensures AllHold(closed + [active], history[..k], limit)
  {
    forall i | 0 <= i < |closed| ensures Holds(closed[i], history[..k], limit) {
      TilesOrder(closed + [active], i, |closed|);
      HoldsShorter(closed[i], history, k, limit);
    }
  }

  method AllMarked(files: seq<Found>) returns (ok: bool)
    requires forall i :: 0 <= i < |files| ==> |files[i].file| >= HEADER
    ensures ok <==> forall i :: 0 <= i < |files| ==> Marked(files[i])
  {
    for i := 0 to |files|
      invariant forall j :: 0 <= j < i ==> Marked(files[j])
    {
      if Word(files[i].file[..4]) != MAGIC {
        assert !Marked(files[i]);
        return false;
      }
    }
    return true;
  }

  lemma SliceOfTail(h: seq<Payload>, base: nat, n: nat)
    requires base + n <= |h|
    ensures h[base..][..n] == h[base..base + n]
  {
  }

  /** The active segment without its torn end, and how many records it keeps. */
  method Recover(f: Found, ghost h: seq<Payload>) returns (active: Segment, ghost n: nat)
    requires f.base <= |h| && Cut(f.file, h[f.base..])
    ensures n <= |h| - f.base && Length(h[f.base..][..n]) <= |f.file|
    ensures active == Active(f, f.base + n, Length(h[f.base..][..n]))
    ensures f.file[..Length(h[f.base..][..n])] == Image(h[f.base..][..n])
    ensures f.base + n < |h| ==> |f.file| < Length(h[f.base..f.base + n + 1])
  {
    CutMagic(f.file, h[f.base..]);
    var scan;
    scan, n := Scan(f.file, f.base, h[f.base..]);
    if f.base + n < |h| {
      SliceOfTail(h, f.base, n + 1);
    }
    active := Active(f, scan.value.0, scan.value.1);
  }

  /** The segments of a directory, the active one without its torn end. */
  method Gather(files: seq<Found>, ghost h: seq<Payload>, ghost limit: nat) returns (segments: seq<Segment>, ghost k: nat)
    requires OnDisk(files, h, limit)
    ensures segments != [] && files[0].base == segments[0].base <= segments[|segments| - 1].end == k
    ensures files[|files| - 1].base <= k <= |h|
    ensures Log(segments, files[0].base, k, k - files[0].base, Total(segments), h[..k], limit)
    ensures k < |h| ==> |files[|files| - 1].file| < Length(h[files[|files| - 1].base..k + 1])
  {
    var last := files[|files| - 1];
    var active;
    ghost var n;
    active, n := Recover(last, h);
    var closed := CloseAll(files);
    Loaded(files, closed, active, h, n, active.byteLen, limit);
    k := last.base + n;
    segments := closed + [active];
  }

  class Topic {
    const limit: nat
    var segments: seq<Segment>
    var earliest: nat
    var next: nat
    var records: nat
    var retained: nat
    var consumers: map<string, Cursor>
    ghost var history: seq<Payload>

    ghost predicate Logged()
      reads this
    {
      Log(segments, earliest, next, records, retained, history, limit)
    }

    /** No committed cursor points at something compacted away. */
    ghost predicate Safe()
      reads this
    {
      forall c :: c in consumers ==> earliest <= consumers[c].committed <= consumers[c].volatile
    }

    ghost predicate Valid()
      reads this
    {
      Logged() && Safe()
    }

    constructor (limit: nat)
      ensures Valid() && history == [] && consumers == map[] && this.limit == limit
    {
      this.limit := limit;
      segments := [Segment(0, 0, HEADER, LE32(MAGIC))];
      earliest, next, records, retained, consumers, history := 0, 0, 0, HEADER, map[], [];
    }

    method Relog(s: seq<Segment>, e: nat, n: nat, r: nat, b: nat, ghost h: seq<Payload>)
      modifies this`segments, this`earliest, this`next, this`records, this`retained, this`history
      ensures segments == s && earliest == e && next == n && records == r && retained == b && history == h
    {
      segments, earliest, next, records, retained, history := s, e, n, r, b, h;
    }

    /** Drops the oldest segments that every consumer has committed past. */
    method Compact()
      requires Valid()
      modifies this`segments, this`earliest, this`next, this`records, this`retained, this`history
      ensures Valid() && history == old(history) && next == old(next) && earliest >= old(earliest)
      ensures Compacted(old(segments), consumers, segments)
      ensures segments[|segments| - 1] == old(segments[|segments| - 1])
    {
      var through := Least(consumers);
      if through.None? {
        return;
      }
      var n := Removable(segments, through.value);
      assert segments[0..] == segments;
      if n == 0 {
        return;
      }
      var removed, size := Tally(segments, n);
      LogDropped(segments, earliest, next, records, retained, history, limit, n);
      Relog(segments[n..], segments[n].base, next, records - removed, retained - size, history);
    }

    /** Closes the active segment and starts an empty one. */
    method Rotate()
      requires Valid() && segments[|segments| - 1].base < next
      modifies this`segments, this`earliest, this`next, this`records, this`retained, this`history
      ensures Valid() && history == old(history) && next == old(next) && earliest >= old(earliest)
      ensures Compacted(old(segments) + [Segment(next, next, HEADER, LE32(MAGIC))], consumers, segments)
      ensures segments[|segments| - 1] == Segment(next, next, HEADER, LE32(MAGIC))
    {
      var segment := Segment(next, next, HEADER, LE32(MAGIC));
      LogRotated(segments, earliest, next, records, retained, history, limit);
      Relog(segments + [segment], earliest, next, records, retained + HEADER, history);
      Compact();
    }

    /** Appends a record, in a new segment when the active one would outgrow its limit. */
    method Append(p: Payload) returns (offset: nat)
      requires Valid()
      modifies this`segments, this`earliest, this`next, this`records, this`retained, this`history
      ensures Valid() && offset == old(next) && history == old(history) + [p]
      ensures earliest >= old(earliest)
      ensures AppendedTo(old(segments), consumers, offset, p, limit, segments)
    {
      var last := segments[|segments| - 1];
      if last.end != last.base && last.byteLen + 4 + |p| > limit {
        Rotate();
      }
      offset := next;
      ghost var ready := segments;
      Write(p);
      AppendRecorded(old(segments), consumers, offset, p, limit, ready, segments);
    }

    method Write(p: Payload)
      requires Valid()
      requires var last := segments[|segments| - 1]; last.base == last.end || last.byteLen + 4 + |p| <= limit
      modifies this`segments, this`earliest, this`next, this`records, this`retained, this`history
      ensures Valid() && history == old(history) + [p] && next == old(next) + 1 && earliest == old(earliest)
      ensures var n := |old(segments)| - 1; segments == old(segments)[..n] + [Extended(old(segments)[n], p)]
    {
      var n := |segments| - 1;
      var last := segments[n];
      LogWritten(segments, earliest, next, records, retained, history, limit, p);
      Relog(segments[..n] + [Extended(last, p)], earliest, next + 1, records + 1, retained + 4 + |p|, history + [p]);
    }

    /** Opens a consumer, at the tail if its name is new. A name has at most one open handle. */
    method Consumer(name: string) returns (r: Result<nat, Refusal>)
      requires Valid()
      modifies this`consumers
      ensures Valid() && r.Err? == (name in old(consumers) && old(consumers[name].active))
      ensures var was := if name in old(consumers) then old(consumers[name]) else Cursor(next, next, false);
              r.Ok? ==> r.value == was.volatile && consumers == old(consumers)[name := was.(active := true)]
      ensures r.Err? ==> consumers == old(consumers)
    {
      assert earliest <= next;
      var cursor := if name in consumers then consumers[name] else Cursor(next, next, false);
      if cursor.active {
        return Err(AlreadyExists);
      }
      consumers := consumers[name := cursor.(active := true)];
      return Ok(cursor.volatile);
    }

    method Commit(name: string)
      requires Valid() && name in consumers
      modifies this`consumers
      ensures Valid() && consumers == old(consumers)[name := old(consumers[name]).(committed := old(consumers[name].volatile))]
    {
      consumers := consumers[name := consumers[name].(committed := consumers[name].volatile)];
    }

    method Seek(name: string, offset: nat)
      requires Valid() && name in consumers && offset >= consumers[name].committed
      modifies this`consumers
      ensures Valid() && consumers == old(consumers)[name := old(consumers[name]).(volatile := offset)]
    {
      consumers := consumers[name := consumers[name].(volatile := offset)];
    }

    method Reset(name: string)
      requires Valid() && name in consumers
      modifies this`consumers
      ensures Valid() && consumers == old(consumers)[name := old(consumers[name]).(volatile := old(consumers[name].committed))]
    {
      consumers := consumers[name := consumers[name].(volatile := consumers[name].committed)];
    }

    /** Closing a handle forgets what was not committed. */
    method Close(name: string)
      requires Valid() && name in consumers
      modifies this`consumers
      ensures Valid()
      ensures var was := old(consumers[name]); consumers == old(consumers)[name := Cursor(was.committed, was.committed, false)]
    {
      consumers := consumers[name := Cursor(consumers[name].committed, consumers[name].committed, false)];
    }

    method Delete(name: string)
      requires Valid()
      modifies this`consumers
      ensures Valid() && consumers == old(consumers) - {name}
    {
      consumers := consumers - {name};
    }

    /** The next record for a consumer: the one appended at its cursor, or none at the tail. */
    method Next(name: string) returns (r: Option<Payload>)
      requires Valid() && name in consumers
      modifies this`consumers
      ensures Valid()
      ensures var v := old(consumers[name].volatile);
              && r == (if v < |history| then Some(history[v]) else None)
              && consumers == old(consumers)[name := old(consumers[name]).(volatile := if v < |history| then v + 1 else v)]
    {
      var offset := consumers[name].volatile;
      if offset >= next {
        return None;
      }
      var i := Find(segments, offset);
      var p := Read(segments[i], offset, history, limit);
      consumers := consumers[name := consumers[name].(volatile := offset + 1)];
      return Some(p);
    }

    constructor Load(limit: nat, s: seq<Segment>, offsets: map<string, nat>, ghost h: seq<Payload>)
      requires s != [] && s[0].base <= s[|s| - 1].end
      requires Log(s, s[0].base, s[|s| - 1].end, s[|s| - 1].end - s[0].base, Total(s), h, limit)
      requires forall c :: c in offsets ==> s[0].base <= offsets[c]
      ensures Valid() && this.limit == limit && segments == s && history == h
      ensures consumers == map c | c in offsets :: Cursor(offsets[c], offsets[c], false)
    {
      this.limit := limit;
      segments, earliest, next, records := s, s[0].base, s[|s| - 1].end, s[|s| - 1].end - s[0].base;
      retained, history := Total(s), h;
      consumers := map c | c in offsets :: Cursor(offsets[c], offsets[c], false);
    }

    /**
     Reopens a directory. A file without the magic number is refused. Otherwise the topic holds the
     history up to the last record that is complete in the active file.
     */
    static method Open(limit: nat, files: seq<Found>, offsets: map<string, nat>, ghost h: seq<Payload>)
      returns (r: Result<Topic, Error>, ghost k: nat)
      requires files != [] && forall i :: 0 <= i < |files| ==> |files[i].file| >= HEADER
      requires (forall i :: 0 <= i < |files| ==> Marked(files[i])) ==> OnDisk(files, h, limit)
      requires forall c :: c in offsets ==> files[0].base <= offsets[c]
      ensures r.Ok? <==> forall i :: 0 <= i < |files| ==> Marked(files[i])
      ensures r.Ok? ==> fresh(r.value) && r.value.Valid() && files[|files| - 1].base <= k <= |h| && r.value.history == h[..k]
      ensures r.Ok? && k < |h| ==> |files[|files| - 1].file| < Length(h[files[|files| - 1].base..k + 1])
      ensures r.Ok? ==> r.value.earliest == files[0].base
      ensures r.Ok? ==> r.value.consumers == map c | c in offsets :: Cursor(offsets[c], offsets[c], false)
    {
      var ok := AllMarked(files);
      if !ok {
        return Err(NotASegment), 0;
      }
      var s;
      s, k := Gather(files, h, limit);
      var t := new Topic.Load(limit, s, offsets, h[..k]);
      return Ok(t), k;
    }

    /** The files of a valid topic, with the active one cut anywhere after its header, can be reopened. */
    lemma Reopenable(cut: nat)
      requires Valid() && HEADER <= cut <= segments[|segments| - 1].byteLen
      ensures OnDisk(Files(cut), history, limit) && Files(cut)[0].base == earliest
    {
      var n := |segments| - 1;
      var last := segments[n];
      var files := Files(cut);
      assert Holds(last, history, limit);
      assert history[last.base..last.end] == history[last.base..];
      ImageLength(history[last.base..]);
      forall i | 0 <= i < |files| - 1 ensures Whole(files[i], files[i + 1].base, history, limit) {
        assert Meets(segments[i], segments[i + 1]) && Holds(segments[i], history, limit);
      }
    }

    /** The last file, uncut, holds every record. */
    lemma WholeFile(k: nat)
      requires Valid() && segments[|segments| - 1].base <= k <= |history|
      ensures Length(history[segments[|segments| - 1].base..k]) <= segments[|segments| - 1].byteLen
    {
      var last := segments[|segments| - 1];
      var records := history[last.base..];
      assert Holds(last, history, limit);
      assert history[last.base..last.end] == records && records[..|records|] == records;
      assert history[last.base..k] == records[..k - last.base];
      ImageLength(records);
      LengthMonotone(records, k - last.base, |records|);
    }

    lemma WholeFiles()
      requires Valid()
      ensures var last := segments[|segments| - 1];
              && HEADER <= last.byteLen == |last.file|
              && Files(last.byteLen)[|segments| - 1] == Found(last.base, last.file)
              && forall k :: last.base <= k <= |history| ==> Length(history[last.base..k]) <= last.byteLen
    {
      var last := segments[|segments| - 1];
      assert Holds(last, history, limit);
      assert history[last.base..last.base] == [];
      forall k | last.base <= k <= |history| ensures Length(history[last.base..k]) <= last.byteLen {
        WholeFile(k);
      }
    }

    /** None of those files is refused. */
    lemma ReopenMarked(cut: nat)
      requires Valid() && HEADER <= cut <= segments[|segments| - 1].byteLen
      ensures forall i :: 0 <= i < |segments| ==> Marked(Files(cut)[i])
    {
      Reopenable(cut);
      forall i | 0 <= i < |segments| ensures Marked(Files(cut)[i]) {
        OnDiskMarked(Files(cut), history, limit, i);
      }
    }

    /** What the directory of the topic holds: every file whole, and the committed cursors. */
    method Saved() returns (files: seq<Found>, offsets: map<string, nat>)
      requires Valid()
      ensures OnDisk(files, history, limit) && forall i :: 0 <= i < |files| ==> Marked(files[i])
      ensures var last := files[|files| - 1];
              forall k :: last.base <= k <= |history| ==> Length(history[last.base..k]) <= |last.file|
      ensures offsets == (map c | c in consumers :: consumers[c].committed) && forall c :: c in offsets ==> files[0].base <= offsets[c]
    {
      WholeFiles();
      var cut := segments[|segments| - 1].byteLen;
      Reopenable(cut);
      ReopenMarked(cut);
      files, offsets := Files(cut), map c | c in consumers :: consumers[c].committed;
    }

    function Files(cut: nat): seq<Found>
      requires segments != [] && cut <= |segments[|segments| - 1].file|
      reads this
    {
      seq(|segments|, i requires 0 <= i < |segments| reads this =>
        Found(segments[i].base, if i == |segments| - 1 && cut <= |segments[i].file| then segments[i].file[..cut] else segments[i].file))
    }
  }
}
