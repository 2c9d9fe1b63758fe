/** Segment files of a topic: framing, positions and recovery of a torn tail. */
module TopicFiles {
  import opened Base
  import opened Bytes

  const MAGIC: nat := 0x4349_5054
  const HEADER: nat := 4

  type Payload = b: bytes | |b| <= U32_MAX

  datatype Error = NotASegment

  function Framed(p: Payload): (b: bytes)
    ensures |b| == 4 + |p|
  {
    LE32(|p|) + p
  }

  /** The bytes of a segment holding these records. */
  function Image(records: seq<Payload>): bytes {
    if records == [] then LE32(MAGIC) else Image(records[..|records| - 1]) + Framed(records[|records| - 1])
  }

  /** Where the record after these starts. */
  function Length(records: seq<Payload>): nat {
    if records == [] then HEADER else Length(records[..|records| - 1]) + 4 + |records[|records| - 1]|
  }

  lemma {:induction false} ImageLength(records: seq<Payload>)
    ensures |Image(records)| == Length(records)
  {
    if records != [] {
      ImageLength(records[..|records| - 1]);
    }
  }

  lemma Appended(records: seq<Payload>, p: Payload)
    ensures Image(records + [p]) == Image(records) + Framed(p) && Length(records + [p]) == Length(records) + 4 + |p|
  {
    assert (records + [p])[..|records|] == records;
  }

  lemma LengthNext(records: seq<Payload>, i: nat)
    requires i < |records|
    ensures Length(records[..i + 1]) == Length(records[..i]) + 4 + |records[i]|
  {
    assert records[..i + 1][..i] == records[..i];
  }

  lemma {:induction false} LengthMonotone(records: seq<Payload>, i: nat, j: nat)
    requires i <= j <= |records|
    ensures HEADER <= Length(records[..i]) <= Length(records[..j])
    ensures i < j ==> Length(records[..i]) < Length(records[..j])
    decreases j
  {
    if i < j {
      LengthNext(records, j - 1);
      LengthMonotone(records, i, j - 1);
    } else if i > 0 {
      LengthNext(records, i - 1);
      LengthMonotone(records, i - 1, i - 1);
    }
  }

  /** Each record stands at its place. */
  lemma {:induction false} FrameAt(m: bytes, records: seq<Payload>, i: nat)
    requires At(m, 0, Image(records)) && i < |records|
    ensures At(m, Length(records[..i]), Framed(records[i])) && At(m, 0, Image(records[..i]))
    decreases |records|
  {
    var front := records[..|records| - 1];
    AtSplit(m, 0, Image(front), Framed(records[|records| - 1]));
    ImageLength(front);
    if i < |records| - 1 {
      FrameAt(m, front, i);
      assert front[..i] == records[..i];
    }
  }

  lemma {:induction false} MagicAt(m: bytes, records: seq<Payload>)
    requires At(m, 0, Image(records))
    ensures At(m, 0, LE32(MAGIC)) && |m| >= Length(records)
    decreases |records|
  {
    ImageLength(records);
    if records != [] {
      AtSplit(m, 0, Image(records[..|records| - 1]), Framed(records[|records| - 1]));
      MagicAt(m, records[..|records| - 1]);
    }
  }

  lemma ReadFrame(m: bytes, c: nat, p: Payload)
    requires At(m, c, Framed(p))
    ensures c + 4 + |p| <= |m| && Word(m[c..c + 4]) == |p| && m[c + 4..c + 4 + |p|] == p
  {
    AtSplit(m, c, LE32(|p|), p);
    WordAt(m, c, |p|);
  }

  /** The file is what is left of a segment with these records after its end was cut off. */
  predicate Cut(file: bytes, records: seq<Payload>) {
    HEADER <= |file| <= Length(records) && |Image(records)| == Length(records) && file == Image(records)[..|file|]
  }

  lemma CutMagic(file: bytes, records: seq<Payload>)
    requires Cut(file, records)
    ensures Word(file[..4]) == MAGIC
  {
    var m := Image(records);
    MagicAt(m, records);
    assert m[0..4] == file[..4];
    WordAt(m, 0, MAGIC);
  }

  /** In a cut file the header of a record tells whether the record is whole. */
  lemma CutFrame(file: bytes, records: seq<Payload>, i: nat)
    requires Cut(file, records) && i <= |records| && Length(records[..i]) + 4 <= |file|
    ensures i < |records| && Word(file[Length(records[..i])..Length(records[..i]) + 4]) == |records[i]|
  {
    var m, c := Image(records), Length(records[..i]);
    assert records[..|records|] == records;
    if i < |records| {
      FrameAt(m, records, i);
      ReadFrame(m, c, records[i]);
      assert file[c..c + 4] == m[c..c + 4];
    }
  }

  /**
   Scans the active segment. Of a file cut anywhere after its header it keeps exactly the longest run
   of complete records: `n` of them, and either none is missing or the next one does not fit.
   */
  method Scan(file: bytes, base: nat, ghost records: seq<Payload>)
    returns (r: Result<(nat, nat), Error>, ghost n: nat)
    requires |file| >= HEADER && (Word(file[..4]) == MAGIC ==> Cut(file, records))
    ensures r.Ok? <==> Word(file[..4]) == MAGIC
    ensures r.Ok? ==> n <= |records| && r.value == (base + n, Length(records[..n])) && Length(records[..n]) <= |file|
    ensures r.Ok? && n < |records| ==> |file| < Length(records[..n + 1])
    ensures r.Ok? ==> file[..Length(records[..n])] == Image(records[..n])
  {
    if Word(file[..4]) != MAGIC {
      return Err(NotASegment), 0;
    }
    var found, cursor := 0, HEADER;
    while cursor + 4 <= |file|
      invariant found <= |records| && cursor == Length(records[..found]) <= |file|
      decreases |file| - cursor
    {
      CutFrame(file, records, found);
      LengthNext(records, found);
      var end := cursor + 4 + Word(file[cursor..cursor + 4]);
      if end > |file| {
        break;
      }
      found, cursor := found + 1, end;
    }
    n := found;
    if n < |records| {
      LengthNext(records, n);
    }
    CutImage(file, records, n);
    return Ok((base + found, cursor)), found;
  }

  lemma CutImage(file: bytes, records: seq<Payload>, n: nat)
    requires Cut(file, records) && n <= |records| && Length(records[..n]) <= |file|
    ensures file[..Length(records[..n])] == Image(records[..n])
  {
    var m := Image(records);
    ImageLength(records[..n]);
    if n < |records| {
      FrameAt(m, records, n);
    } else {
      assert records[..n] == records;
    }
    assert m[0..Length(records[..n])] == file[..Length(records[..n])];
  }

  /** A whole segment file is scanned to its end. */
  lemma WholeCut(records: seq<Payload>)
    ensures Cut(Image(records), records)
  {
    ImageLength(records);
    LengthMonotone(records, 0, |records|);
    assert records[..|records|] == records;
  }
}
