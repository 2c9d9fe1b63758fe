/** The slotted leaf page: bytes in a fixed buffer that stand for a sequence of entries. */
module LeafPages {
  import opened Base
  import opened Bytes
  import Lex

  const PAGE: nat := 4096
  const HEADER: nat := 24
  const SLOT: nat := 2
  const OVERFLOW: nat := 0x8000_0000
  const U16_MAX: nat := 0xFFFF

  function LE16(n: nat): (b: bytes)
    requires n <= U16_MAX
    ensures |b| == 2
  {
    [n % 256, n / 256]
  }

  function Half(b: bytes): nat
    requires |b| == 2
  {
    b[0] as int + 256 * b[1] as int
  }

  lemma HalfAt(m: bytes, c: nat, n: nat)
    requires n <= U16_MAX && At(m, c, LE16(n))
    ensures Half(m[c..c + 2]) == n
  {
  }

  /** The bytes an entry stores after its key: the value, or the first page of the extent holding it. */
  function PayloadSize(length: nat): nat {
    if length >= OVERFLOW then 8 else length
  }

  datatype Raw = Raw(key: bytes, length: nat, payload: bytes)

  predicate Fits(e: Raw) {
    |e.key| <= U16_MAX && e.length <= U32_MAX && |e.payload| == PayloadSize(e.length)
  }

  type Entry = e: Raw | Fits(e) witness Raw([], 0, [])

  function Size(e: Entry): nat {
    6 + |e.key| + |e.payload|
  }

  function Encoded(e: Entry): (b: bytes)
    ensures |b| == Size(e)
  {
    LE16(|e.key|) + LE32(e.length) + e.key + e.payload
  }

  function Total(entries: seq<Entry>): nat {
    if entries == [] then 0 else Size(entries[0]) + Total(entries[1..])
  }

  // ---- the layout -----------------------------------------------------------------------

  /** Two entries do not overlap. */
  predicate Clear(entries: seq<Entry>, offs: seq<nat>, i: nat, j: nat)
    requires i < |entries| == |offs| && j < |offs|
  {
    offs[i] + Size(entries[i]) <= offs[j] || offs[j] + Size(entries[j]) <= offs[i]
  }

  /** The entries lie between `off` and the end of the page, do not overlap, and fill it. */
  ghost predicate Laid(entries: seq<Entry>, offs: seq<nat>, off: nat) {
    && |offs| == |entries| && HEADER + SLOT * |entries| <= off && Total(entries) + off == PAGE
    && (forall i :: 0 <= i < |offs| ==> off <= offs[i] && offs[i] + Size(entries[i]) <= PAGE)
    && (forall i, j :: 0 <= i < j < |offs| ==> Clear(entries, offs, i, j))
  }

  predicate SlotAt(m: bytes, i: nat, o: nat) {
    o <= U16_MAX && At(m, HEADER + SLOT * i, LE16(o))
  }

  /** Count, data offset, and the first two and the sixteen link bytes of the header. */
  predicate Headed(m: bytes, kind: bytes, links: bytes, count: nat, off: nat) {
    && |m| == PAGE && |kind| == 2 && |links| == 16 && count <= U16_MAX && off <= U32_MAX
    && At(m, 0, kind) && At(m, 2, LE16(count)) && At(m, 4, LE32(off)) && At(m, 8, links)
  }

  ghost predicate Stored(m: bytes, entries: seq<Entry>, offs: seq<nat>) {
    |offs| == |entries| && forall i {:trigger EntryAt(m, entries, offs, i)} :: 0 <= i < |offs| ==> EntryAt(m, entries, offs, i)
  }

  /** The entry can be read at its offset. */
  predicate EntryAt(m: bytes, entries: seq<Entry>, offs: seq<nat>, i: nat) {
    i < |entries| && i < |offs| && At(m, offs[i], Encoded(entries[i]))
  }

  ghost predicate Slotted(m: bytes, offs: seq<nat>) {
    forall i :: 0 <= i < |offs| ==> SlotAt(m, i, offs[i])
  }

  ghost predicate PageOk(m: bytes, kind: bytes, links: bytes, entries: seq<Entry>, offs: seq<nat>, off: nat) {
    Headed(m, kind, links, |entries|, off) && Laid(entries, offs, off) && Stored(m, entries, offs) && Slotted(m, offs)
  }

  // ---- writes that stay clear of what they must keep ------------------------------------------

  lemma HeadedKept(m: bytes, kind: bytes, links: bytes, count: nat, off: nat, c: nat, b: bytes)
    requires Headed(m, kind, links, count, off) && HEADER <= c && c + |b| <= PAGE
    ensures Headed(Write(m, c, b), kind, links, count, off)
  {
    WriteKeeps(m, c, b, 0, kind);
    WriteKeeps(m, c, b, 2, LE16(count));
    WriteKeeps(m, c, b, 4, LE32(off));
    WriteKeeps(m, c, b, 8, links);
  }

  lemma StoredKept(m: bytes, entries: seq<Entry>, offs: seq<nat>, off: nat, c: nat, b: bytes)
    requires Laid(entries, offs, off) && Stored(m, entries, offs) && c + |b| <= off && |m| == PAGE
    ensures Stored(Write(m, c, b), entries, offs)
  {
    forall i | 0 <= i < |offs| ensures EntryAt(Write(m, c, b), entries, offs, i) {
      assert EntryAt(m, entries, offs, i);
      WriteKeeps(m, c, b, offs[i], Encoded(entries[i]));
    }
  }

  lemma SlotKept(m: bytes, i: nat, o: nat, c: nat, b: bytes)
    requires SlotAt(m, i, o) && c + |b| <= |m| && (HEADER + SLOT * i + 2 <= c || c + |b| <= HEADER + SLOT * i)
    ensures SlotAt(Write(m, c, b), i, o)
  {
    WriteKeeps(m, c, b, HEADER + SLOT * i, LE16(o));
  }

  /** Copies bytes into the page. */
  method Store(buf: array<byte>, c: nat, b: bytes)
    requires c + |b| <= buf.Length
    modifies buf
    ensures buf[..] == Write(old(buf[..]), c, b)
  {
    ghost var was := buf[..];
    for i := 0 to |b|
      invariant forall x :: 0 <= x < buf.Length ==> buf[x] == if c <= x < c + i then b[x - c] else was[x]
    {
      buf[c + i] := b[i];
    }
  }

  // ---- insert ---------------------------------------------------------------------------------

  function Inserted<T>(s: seq<T>, pos: nat, x: T): (r: seq<T>)
    requires pos <= |s|
    ensures |r| == |s| + 1
    ensures forall i :: 0 <= i < |r| ==> r[i] == if i < pos then s[i] else if i == pos then x else s[i - 1]
  {
    s[..pos] + [x] + s[pos..]
  }

  lemma {:induction false} TotalInserted(entries: seq<Entry>, pos: nat, e: Entry)
    requires pos <= |entries|
    ensures Total(Inserted(entries, pos, e)) == Total(entries) + Size(e)
    decreases pos
  {
    var r := Inserted(entries, pos, e);
    if pos == 0 {
      assert r[1..] == entries;
    } else {
      TotalInserted(entries[1..], pos - 1, e);
      assert r[1..] == Inserted(entries[1..], pos - 1, e);
    }
  }

  lemma ClearInserted(entries: seq<Entry>, offs: seq<nat>, off: nat, pos: nat, e: Entry, i: nat, j: nat)
    requires Laid(entries, offs, off) && pos <= |entries| && Size(e) <= off && i < j <= |entries|
    ensures Clear(Inserted(entries, pos, e), Inserted(offs, pos, off - Size(e)), i, j)
  {
    if i != pos && j != pos {
      assert Clear(entries, offs, if i < pos then i else i - 1, if j < pos then j else j - 1);
    }
  }

  lemma LaidInserted(entries: seq<Entry>, offs: seq<nat>, off: nat, pos: nat, e: Entry)
    requires Laid(entries, offs, off) && pos <= |entries| && HEADER + SLOT * (|entries| + 1) + Size(e) <= off
    ensures Laid(Inserted(entries, pos, e), Inserted(offs, pos, off - Size(e)), off - Size(e))
  {
    TotalInserted(entries, pos, e);
    var es, os := Inserted(entries, pos, e), Inserted(offs, pos, off - Size(e));
    forall i, j | 0 <= i < j < |os| ensures Clear(es, os, i, j) {
      ClearInserted(entries, offs, off, pos, e, i, j);
    }
    forall i | 0 <= i < |os| ensures off - Size(e) <= os[i] && os[i] + Size(es[i]) <= PAGE {
    }
  }

  /** Slots below `j` are in place, those from `j` on one place to the right. */
  ghost predicate Sliding(m: bytes, offs: seq<nat>, j: nat) {
    && (forall i :: 0 <= i < j && i < |offs| ==> SlotAt(m, i, offs[i]))
    && (forall i :: j <= i < |offs| ==> SlotAt(m, i + 1, offs[i]))
  }

  lemma SlideStep(m: bytes, offs: seq<nat>, j: nat)
    requires Sliding(m, offs, j) && 0 < j <= |offs| && HEADER + SLOT * (|offs| + 1) <= |m|
    ensures offs[j - 1] <= U16_MAX && Half(m[HEADER + SLOT * (j - 1)..HEADER + SLOT * (j - 1) + 2]) == offs[j - 1]
    ensures Sliding(Write(m, HEADER + SLOT * j, LE16(offs[j - 1])), offs, j - 1)
  {
    assert SlotAt(m, j - 1, offs[j - 1]);
    HalfAt(m, HEADER + SLOT * (j - 1), offs[j - 1]);
    var b := LE16(offs[j - 1]);
    var c := HEADER + SLOT * j;
    WriteAt(m, c, b);
    forall i | 0 <= i < j - 1 ensures SlotAt(Write(m, c, b), i, offs[i]) {
      SlotKept(m, i, offs[i], c, b);
    }
    forall i | j <= i < |offs| ensures SlotAt(Write(m, c, b), i + 1, offs[i]) {
      SlotKept(m, i + 1, offs[i], c, b);
    }
    assert SlotAt(Write(m, c, b), j, offs[j - 1]);
  }

  /** What a change to the slots must leave alone. */
  ghost predicate Framed(m: bytes, kind: bytes, links: bytes, count: nat, entries: seq<Entry>, offs: seq<nat>, off: nat) {
    Headed(m, kind, links, count, off) && Laid(entries, offs, off) && Stored(m, entries, offs)
  }

  lemma FramedKept(m: bytes, kind: bytes, links: bytes, count: nat, entries: seq<Entry>, offs: seq<nat>, off: nat, c: nat, b: bytes)
    requires Framed(m, kind, links, count, entries, offs, off) && HEADER <= c && c + |b| <= off
    ensures Framed(Write(m, c, b), kind, links, count, entries, offs, off)
  {
    HeadedKept(m, kind, links, count, off, c, b);
    StoredKept(m, entries, offs, off, c, b);
  }

  /** Moves the slots from `pos` on one place to the right. */
  method ShiftRight(buf: array<byte>, pos: nat, count: nat, ghost kind: bytes, ghost links: bytes,
                    ghost entries: seq<Entry>, ghost offs: seq<nat>, ghost off: nat)
    requires Framed(buf[..], kind, links, count, entries, offs, off) && Slotted(buf[..], offs)
    requires pos <= count == |offs| && HEADER + SLOT * (count + 1) <= off
    modifies buf
    ensures Framed(buf[..], kind, links, count, entries, offs, off) && Sliding(buf[..], offs, pos)
  {
    var j := count;
    while j > pos
      invariant pos <= j <= count
      invariant Framed(buf[..], kind, links, count, entries, offs, off) && Sliding(buf[..], offs, j)
    {
      var from := HEADER + SLOT * (j - 1);
      SlideStep(buf[..], offs, j);
      FramedKept(buf[..], kind, links, count, entries, offs, off, HEADER + SLOT * j, LE16(offs[j - 1]));
      assert buf[from..from + 2] == buf[..][from..from + 2];
      var v := Half(buf[from..from + 2]);
      Store(buf, HEADER + SLOT * j, LE16(v));
      j := j - 1;
    }
  }

  lemma StoredInserted(m: bytes, entries: seq<Entry>, offs: seq<nat>, pos: nat, e: Entry, o: nat)
    requires Stored(m, entries, offs) && pos <= |entries| && At(m, o, Encoded(e))
    ensures Stored(m, Inserted(entries, pos, e), Inserted(offs, pos, o))
  {
    var es, os := Inserted(entries, pos, e), Inserted(offs, pos, o);
    forall i | 0 <= i < |os| ensures EntryAt(m, es, os, i) {
      assert i != pos ==> EntryAt(m, entries, offs, if i < pos then i else i - 1);
    }
  }

  lemma SlottedInserted(m: bytes, offs: seq<nat>, pos: nat, o: nat)
    requires Sliding(m, offs, pos) && pos <= |offs| && o <= U16_MAX && HEADER + SLOT * (|offs| + 1) <= |m|
    ensures Slotted(Write(m, HEADER + SLOT * pos, LE16(o)), Inserted(offs, pos, o))
  {
    var c, b := HEADER + SLOT * pos, LE16(o);
    var m' := Write(m, c, b);
    WriteAt(m, c, b);
    forall i | 0 <= i <= |offs| ensures SlotAt(m', i, Inserted(offs, pos, o)[i]) {
      if i < pos {
        SlotKept(m, i, offs[i], c, b);
      } else if i > pos {
        assert SlotAt(m, i - 1 + 1, offs[i - 1]);
        SlotKept(m, i, offs[i - 1], c, b);
      }
    }
  }

  lemma SlottedKept(m: bytes, offs: seq<nat>, c: nat, b: bytes)
    requires Slotted(m, offs) && c + |b| <= |m| && (c + |b| <= HEADER || HEADER + SLOT * |offs| <= c)
    ensures Slotted(Write(m, c, b), offs)
  {
    forall i | 0 <= i < |offs| ensures SlotAt(Write(m, c, b), i, offs[i]) {
      SlotKept(m, i, offs[i], c, b);
    }
  }

  lemma SlidingKept(m: bytes, offs: seq<nat>, j: nat, c: nat, b: bytes)
    requires Sliding(m, offs, j) && c + |b| <= |m| && HEADER + SLOT * (|offs| + 1) <= c
    ensures Sliding(Write(m, c, b), offs, j)
  {
    forall i | 0 <= i < j && i < |offs| ensures SlotAt(Write(m, c, b), i, offs[i]) {
      SlotKept(m, i, offs[i], c, b);
    }
    forall i | j <= i < |offs| ensures SlotAt(Write(m, c, b), i + 1, offs[i]) {
      SlotKept(m, i + 1, offs[i], c, b);
    }
  }

  /** Writes the count and the data offset; the rest of the page does not move. */
  method SetHeader(buf: array<byte>, count: nat, off: nat, ghost kind: bytes, ghost links: bytes, ghost count0: nat, ghost off0: nat,
                   ghost entries: seq<Entry>, ghost offs: seq<nat>)
    requires Headed(buf[..], kind, links, count0, off0) && Stored(buf[..], entries, offs) && Slotted(buf[..], offs)
    requires count <= U16_MAX && off <= U32_MAX && forall i :: 0 <= i < |offs| ==> HEADER <= offs[i]
    modifies buf
    ensures Headed(buf[..], kind, links, count, off) && Stored(buf[..], entries, offs) && Slotted(buf[..], offs)
  {
    HeaderKept(buf[..], entries, offs, 2, LE16(count));
    CountWritten(buf[..], kind, links, count0, off0, count);
    Store(buf, 2, LE16(count));
    HeaderKept(buf[..], entries, offs, 4, LE32(off));
    OffWritten(buf[..], kind, links, count, off0, off);
    Store(buf, 4, LE32(off));
  }

  lemma HeaderKept(m: bytes, entries: seq<Entry>, offs: seq<nat>, c: nat, b: bytes)
    requires Stored(m, entries, offs) && Slotted(m, offs) && |m| == PAGE && c + |b| <= HEADER
    requires forall i :: 0 <= i < |offs| ==> HEADER <= offs[i]
    ensures Stored(Write(m, c, b), entries, offs) && Slotted(Write(m, c, b), offs)
  {
    SlottedKept(m, offs, c, b);
    forall i | 0 <= i < |offs| ensures EntryAt(Write(m, c, b), entries, offs, i) {
      assert EntryAt(m, entries, offs, i);
      WriteKeeps(m, c, b, offs[i], Encoded(entries[i]));
    }
  }

  lemma CountWritten(m: bytes, kind: bytes, links: bytes, count0: nat, off: nat, count: nat)
    requires Headed(m, kind, links, count0, off) && count <= U16_MAX
    ensures Headed(Write(m, 2, LE16(count)), kind, links, count, off)
  {
    var b := LE16(count);
    WriteAt(m, 2, b);
    WriteKeeps(m, 2, b, 0, kind);
    WriteKeeps(m, 2, b, 4, LE32(off));
    WriteKeeps(m, 2, b, 8, links);
  }

  lemma OffWritten(m: bytes, kind: bytes, links: bytes, count: nat, off0: nat, off: nat)
    requires Headed(m, kind, links, count, off0) && off <= U32_MAX
    ensures Headed(Write(m, 4, LE32(off)), kind, links, count, off)
  {
    var b := LE32(off);
    WriteAt(m, 4, b);
    WriteKeeps(m, 4, b, 0, kind);
    WriteKeeps(m, 4, b, 2, LE16(count));
    WriteKeeps(m, 4, b, 8, links);
  }

  /** Writes the bytes of a new entry just below the others. */
  method PutBytes(buf: array<byte>, pos: nat, e: Entry, count: nat, off: nat, ghost kind: bytes, ghost links: bytes,
                  ghost entries: seq<Entry>, ghost offs: seq<nat>)
    requires Framed(buf[..], kind, links, count, entries, offs, off) && Sliding(buf[..], offs, pos)
    requires count == |entries| && pos <= count && HEADER + SLOT * (count + 1) + Size(e) <= off
    modifies buf
    ensures Headed(buf[..], kind, links, count, off) && Sliding(buf[..], offs, pos)
    ensures Stored(buf[..], Inserted(entries, pos, e), Inserted(offs, pos, off - Size(e)))
  {
    var nd := off - Size(e);
    FramedKept(buf[..], kind, links, count, entries, offs, off, nd, Encoded(e));
    SlidingKept(buf[..], offs, pos, nd, Encoded(e));
    WriteAt(buf[..], nd, Encoded(e));
    Store(buf, nd, Encoded(e));
    StoredInserted(buf[..], entries, offs, pos, e, nd);
  }

  /** Points a slot at the new entry. */
  method PutSlot(buf: array<byte>, pos: nat, nd: nat, ghost count: nat, ghost off0: nat, ghost kind: bytes, ghost links: bytes,
                 ghost entries: seq<Entry>, ghost offs: seq<nat>)
    requires pos <= |offs| && Laid(entries, Inserted(offs, pos, nd), nd)
    requires Headed(buf[..], kind, links, count, off0) && Stored(buf[..], entries, Inserted(offs, pos, nd)) && Sliding(buf[..], offs, pos)
    modifies buf
    ensures Headed(buf[..], kind, links, count, off0) && Stored(buf[..], entries, Inserted(offs, pos, nd))
    ensures Slotted(buf[..], Inserted(offs, pos, nd))
  {
    SlottedInserted(buf[..], offs, pos, nd);
    FramedKept2(buf[..], kind, links, count, off0, entries, Inserted(offs, pos, nd), nd, HEADER + SLOT * pos, LE16(nd));
    Store(buf, HEADER + SLOT * pos, LE16(nd));
  }

  /** Bytes and slot of the new entry, once the slots have made way. */
  method PutEntry(buf: array<byte>, pos: nat, e: Entry, count: nat, off: nat, ghost kind: bytes, ghost links: bytes,
                  ghost entries: seq<Entry>, ghost offs: seq<nat>, ghost ns: seq<Entry>, ghost os: seq<nat>)
    requires Framed(buf[..], kind, links, count, entries, offs, off) && Sliding(buf[..], offs, pos)
    requires count == |entries| && pos <= count && HEADER + SLOT * (count + 1) + Size(e) <= off
    requires ns == Inserted(entries, pos, e) && os == Inserted(offs, pos, off - Size(e)) && Laid(ns, os, off - Size(e))
    modifies buf
    ensures PageOk(buf[..], kind, links, ns, os, off - Size(e))
  {
    var nd := off - Size(e);
    PutBytes(buf, pos, e, count, off, kind, links, entries, offs);
    PutSlot(buf, pos, nd, count, off, kind, links, ns, offs);
    SetHeader(buf, count + 1, nd, kind, links, count, off, ns, os);
  }

  /** Puts an entry at `pos` of the order: slots make way, the bytes go below the others. */
  method Insert(buf: array<byte>, pos: nat, e: Entry, count: nat, off: nat, ghost kind: bytes, ghost links: bytes,
                ghost entries: seq<Entry>, ghost offs: seq<nat>) returns (ghost os: seq<nat>)
    requires PageOk(buf[..], kind, links, entries, offs, off) && count == |entries| && pos <= count
    requires HEADER + SLOT * (count + 1) + Size(e) <= off
    modifies buf
    ensures PageOk(buf[..], kind, links, Inserted(entries, pos, e), os, off - Size(e))
  {
    LaidInserted(entries, offs, off, pos, e);
    ghost var ns := Inserted(entries, pos, e);
    os := Inserted(offs, pos, off - Size(e));
    ShiftRight(buf, pos, count, kind, links, entries, offs, off);
    PutEntry(buf, pos, e, count, off, kind, links, entries, offs, ns, os);
  }

  lemma FramedKept2(m: bytes, kind: bytes, links: bytes, count: nat, off0: nat, entries: seq<Entry>, offs: seq<nat>, off: nat, c: nat, b: bytes)
    requires Headed(m, kind, links, count, off0) && Laid(entries, offs, off) && Stored(m, entries, offs) && HEADER <= c && c + |b| <= off
    ensures Headed(Write(m, c, b), kind, links, count, off0) && Stored(Write(m, c, b), entries, offs)
  {
    HeadedKept(m, kind, links, count, off0, c, b);
    StoredKept(m, entries, offs, off, c, b);
  }

  // ---- remove --------------------------------------------------------------------------------------

  function Without<T>(s: seq<T>, pos: nat): (r: seq<T>)
    requires pos < |s|
    ensures |r| == |s| - 1 && forall i :: 0 <= i < |r| ==> r[i] == if i < pos then s[i] else s[i + 1]
  {
    s[..pos] + s[pos + 1..]
  }

  /** Where an entry ends up when `es` bytes at `eo` are squeezed out. */
  function Moved(o: nat, eo: nat, es: nat): nat {
    if o <= eo then o + es else o
  }

  function MovedAll(offs: seq<nat>, eo: nat, es: nat): (r: seq<nat>)
    ensures |r| == |offs| && forall i :: 0 <= i < |r| ==> r[i] == Moved(offs[i], eo, es)
  {
    seq(|offs|, i requires 0 <= i < |offs| => Moved(offs[i], eo, es))
  }

  lemma {:induction false} TotalWithout(entries: seq<Entry>, pos: nat)
    requires pos < |entries|
    ensures Total(Without(entries, pos)) + Size(entries[pos]) == Total(entries)
    decreases pos
  {
    var r := Without(entries, pos);
    if pos == 0 {
      assert r == entries[1..];
    } else {
      TotalWithout(entries[1..], pos - 1);
      assert r[1..] == Without(entries[1..], pos - 1);
    }
  }

  /** Each remaining entry is clear of the removed one. */
  lemma ClearOf(entries: seq<Entry>, offs: seq<nat>, off: nat, pos: nat, i: nat)
    requires Laid(entries, offs, off) && pos < |entries| && i < |entries| && i != pos
    ensures Clear(entries, offs, i, pos)
    ensures offs[i] <= offs[pos] ==> offs[i] + Size(entries[i]) <= offs[pos]
    ensures offs[i] > offs[pos] ==> offs[pos] + Size(entries[pos]) <= offs[i]
  {
    assert Clear(entries, offs, if i < pos then i else pos, if i < pos then pos else i);
  }

  lemma ClearMoved(entries: seq<Entry>, offs: seq<nat>, off: nat, pos: nat, i: nat, j: nat)
    requires Laid(entries, offs, off) && pos < |entries| && i < j < |entries| - 1
    ensures Clear(Without(entries, pos), MovedAll(Without(offs, pos), offs[pos], Size(entries[pos])), i, j)
  {
    var x, y := if i < pos then i else i + 1, if j < pos then j else j + 1;
    assert Clear(entries, offs, x, y);
    ClearOf(entries, offs, off, pos, x);
    ClearOf(entries, offs, off, pos, y);
  }

  lemma InsideMoved(entries: seq<Entry>, offs: seq<nat>, off: nat, pos: nat, x: nat)
    requires Laid(entries, offs, off) && pos < |entries| && x < |entries| && x != pos
    ensures var o := Moved(offs[x], offs[pos], Size(entries[pos])); off + Size(entries[pos]) <= o && o + Size(entries[x]) <= PAGE
  {
    ClearOf(entries, offs, off, pos, x);
  }

  lemma LaidWithout(entries: seq<Entry>, offs: seq<nat>, off: nat, pos: nat)
    requires Laid(entries, offs, off) && pos < |entries|
    ensures var es := Size(entries[pos]);
            Laid(Without(entries, pos), MovedAll(Without(offs, pos), offs[pos], es), off + es)
  {
    var es, eo := Size(entries[pos]), offs[pos];
    var ns, os := Without(entries, pos), MovedAll(Without(offs, pos), eo, es);
    TotalWithout(entries, pos);
    forall i, j | 0 <= i < j < |os| ensures Clear(ns, os, i, j) {
      ClearMoved(entries, offs, off, pos, i, j);
    }
    forall i | 0 <= i < |os| ensures off + es <= os[i] && os[i] + Size(ns[i]) <= PAGE {
      InsideMoved(entries, offs, off, pos, if i < pos then i else i + 1);
    }
  }

  lemma SlideAt(m: bytes, lo: nat, hi: nat, es: nat, d: nat, x: bytes)
    requires lo <= d && d + |x| <= hi && hi + es <= |m| && At(m, d, x)
    ensures At(Write(m, lo + es, m[lo..hi]), d + es, x)
  {
    var w := Write(m, lo + es, m[lo..hi]);
    forall i | 0 <= i < |x| ensures w[d + es..d + es + |x|][i] == x[i] {
      assert m[d..d + |x|][i] == x[i];
    }
  }

  /** Sliding the bytes below the gap over it keeps every other entry readable at its new place. */
  lemma SlidAt(m: bytes, entries: seq<Entry>, offs: seq<nat>, off: nat, pos: nat, x: nat)
    requires Laid(entries, offs, off) && pos < |entries| && x < |entries| && x != pos && |m| == PAGE
    requires At(m, offs[x], Encoded(entries[x]))
    ensures var es, eo := Size(entries[pos]), offs[pos];
            off <= eo && eo + es <= PAGE && At(Write(m, off + es, m[off..eo]), Moved(offs[x], eo, es), Encoded(entries[x]))
  {
    var es, eo := Size(entries[pos]), offs[pos];
    ClearOf(entries, offs, off, pos, x);
    if offs[x] <= eo {
      SlideAt(m, off, eo, es, offs[x], Encoded(entries[x]));
    } else {
      WriteKeeps(m, off + es, m[off..eo], offs[x], Encoded(entries[x]));
    }
  }

  lemma StoredSlid(m: bytes, entries: seq<Entry>, offs: seq<nat>, off: nat, pos: nat)
    requires Laid(entries, offs, off) && Stored(m, entries, offs) && pos < |entries| && |m| == PAGE
    ensures var es, eo := Size(entries[pos]), offs[pos];
            off <= eo && eo + es <= PAGE &&
            Stored(Write(m, off + es, m[off..eo]), Without(entries, pos), MovedAll(Without(offs, pos), eo, es))
  {
    var es, eo := Size(entries[pos]), offs[pos];
    var w := Write(m, off + es, m[off..eo]);
    var ns, os := Without(entries, pos), MovedAll(Without(offs, pos), eo, es);
    forall i | 0 <= i < |os| ensures EntryAt(w, ns, os, i) {
      assert EntryAt(m, entries, offs, if i < pos then i else i + 1);
      SlidAt(m, entries, offs, off, pos, if i < pos then i else i + 1);
    }
  }

  /** Slots up to `j` have closed the gap at `pos`; those from `j` on are in place. */
  ghost predicate Closing(m: bytes, offs: seq<nat>, pos: nat, j: nat) {
    && (forall i {:trigger SlotAt(m, i, offs[i])} :: 0 <= i < pos && i < |offs| ==> SlotAt(m, i, offs[i]))
    && (forall i :: pos < i < j && i < |offs| ==> SlotAt(m, i - 1, offs[i]))
    && (forall i {:trigger SlotAt(m, i, offs[i])} :: j <= i < |offs| ==> SlotAt(m, i, offs[i]))
  }

  lemma CloseStep(m: bytes, offs: seq<nat>, pos: nat, j: nat)
    requires Closing(m, offs, pos, j) && pos < j < |offs| && HEADER + SLOT * |offs| <= |m|
    ensures offs[j] <= U16_MAX && Half(m[HEADER + SLOT * j..HEADER + SLOT * j + 2]) == offs[j]
    ensures Closing(Write(m, HEADER + SLOT * (j - 1), LE16(offs[j])), offs, pos, j + 1)
  {
    assert SlotAt(m, j, offs[j]);
    HalfAt(m, HEADER + SLOT * j, offs[j]);
    var c, b := HEADER + SLOT * (j - 1), LE16(offs[j]);
    var w := Write(m, c, b);
    WriteAt(m, c, b);
    forall i | 0 <= i < pos && i < |offs| ensures SlotAt(w, i, offs[i]) {
      SlotKept(m, i, offs[i], c, b);
    }
    forall i | pos < i < j + 1 && i < |offs| ensures SlotAt(w, i - 1, offs[i]) {
      if i < j {
        assert SlotAt(m, i - 1, offs[i]);
        SlotKept(m, i - 1, offs[i], c, b);
      }
    }
    forall i | j + 1 <= i < |offs| ensures SlotAt(w, i, offs[i]) {
      SlotKept(m, i, offs[i], c, b);
    }
  }

  /** Moves the slots after `pos` one place to the left. */
  method ShiftLeft(buf: array<byte>, pos: nat, count: nat, ghost kind: bytes, ghost links: bytes,
                   ghost entries: seq<Entry>, ghost offs: seq<nat>, ghost off: nat)
    requires Framed(buf[..], kind, links, count, entries, offs, off) && Slotted(buf[..], offs) && pos < count == |offs|
    modifies buf
    ensures Framed(buf[..], kind, links, count, entries, offs, off) && Slotted(buf[..], Without(offs, pos))
  {
    var j := pos + 1;
    assert Closing(buf[..], offs, pos, j);
    while j < count
      invariant pos < j <= count
      invariant Framed(buf[..], kind, links, count, entries, offs, off) && Closing(buf[..], offs, pos, j)
    {
      CloseStep(buf[..], offs, pos, j);
      FramedKept(buf[..], kind, links, count, entries, offs, off, HEADER + SLOT * (j - 1), LE16(offs[j]));
      var from := HEADER + SLOT * j;
      assert buf[from..from + 2] == buf[..][from..from + 2];
      var v := Half(buf[from..from + 2]);
      Store(buf, HEADER + SLOT * (j - 1), LE16(v));
      j := j + 1;
    }
    Closed(buf[..], offs, pos);
  }

  lemma Closed(m: bytes, offs: seq<nat>, pos: nat)
    requires Closing(m, offs, pos, |offs|) && pos < |offs|
    ensures Slotted(m, Without(offs, pos))
  {
    var r := Without(offs, pos);
    forall i | 0 <= i < |r| ensures SlotAt(m, i, r[i]) {
      assert i < pos ==> SlotAt(m, i, offs[i]);
      assert i >= pos ==> offs[i + 1] == r[i];
    }
  }

  /** Slots before `j` point at the new places, the others still at the old. */
  ghost predicate Fixing(m: bytes, offs: seq<nat>, moved: seq<nat>, j: nat) {
    && |offs| == |moved|
    && (forall i {:trigger SlotAt(m, i, moved[i])} :: 0 <= i < j && i < |offs| ==> SlotAt(m, i, moved[i]))
    && (forall i {:trigger SlotAt(m, i, offs[i])} :: j <= i < |offs| ==> SlotAt(m, i, offs[i]))
  }

  lemma FixStep(m: bytes, offs: seq<nat>, moved: seq<nat>, j: nat)
    requires Fixing(m, offs, moved, j) && j < |offs| && HEADER + SLOT * |offs| <= |m| && moved[j] <= U16_MAX
    ensures offs[j] <= U16_MAX && Half(m[HEADER + SLOT * j..HEADER + SLOT * j + 2]) == offs[j]
    ensures Fixing(Write(m, HEADER + SLOT * j, LE16(moved[j])), offs, moved, j + 1)
  {
    assert SlotAt(m, j, offs[j]);
    HalfAt(m, HEADER + SLOT * j, offs[j]);
    var c, b := HEADER + SLOT * j, LE16(moved[j]);
    WriteAt(m, c, b);
    forall i | 0 <= i < j + 1 ensures SlotAt(Write(m, c, b), i, moved[i]) {
      if i < j {
        SlotKept(m, i, moved[i], c, b);
      }
    }
    forall i | j + 1 <= i < |offs| ensures SlotAt(Write(m, c, b), i, offs[i]) {
      SlotKept(m, i, offs[i], c, b);
    }
  }

  /** Adjusts one slot. */
  method FixOne(buf: array<byte>, j: nat, eo: nat, es: nat, ghost kind: bytes, ghost links: bytes, ghost count: nat, ghost off0: nat,
                ghost entries: seq<Entry>, ghost offs: seq<nat>, ghost moved: seq<nat>, ghost off: nat)
    requires Headed(buf[..], kind, links, count, off0) && Laid(entries, moved, off) && Stored(buf[..], entries, moved)
    requires Fixing(buf[..], offs, moved, j) && j < |offs| && moved[j] == Moved(offs[j], eo, es)
    modifies buf
    ensures Headed(buf[..], kind, links, count, off0) && Stored(buf[..], entries, moved) && Fixing(buf[..], offs, moved, j + 1)
  {
    assert moved[j] <= PAGE;
    FixStep(buf[..], offs, moved, j);
    FramedKept2(buf[..], kind, links, count, off0, entries, moved, off, HEADER + SLOT * j, LE16(moved[j]));
    var at := HEADER + SLOT * j;
    assert buf[at..at + 2] == buf[..][at..at + 2];
    var e := Half(buf[at..at + 2]);
    if e <= eo {
      e := e + es;
    }
    Store(buf, at, LE16(e));
  }

  /** Adjusts the slots of the entries that slid. */
  method FixUp(buf: array<byte>, n: nat, eo: nat, es: nat, ghost kind: bytes, ghost links: bytes, ghost count: nat, ghost off0: nat,
               ghost entries: seq<Entry>, ghost offs: seq<nat>, ghost moved: seq<nat>, ghost off: nat)
    requires Headed(buf[..], kind, links, count, off0) && Laid(entries, moved, off) && Stored(buf[..], entries, moved)
    requires Slotted(buf[..], offs) && n == |offs| == |moved| && forall i :: 0 <= i < n ==> moved[i] == Moved(offs[i], eo, es)
    modifies buf
    ensures Headed(buf[..], kind, links, count, off0) && Stored(buf[..], entries, moved) && Slotted(buf[..], moved)
  {
    for j := 0 to n
      invariant Headed(buf[..], kind, links, count, off0) && Stored(buf[..], entries, moved) && Fixing(buf[..], offs, moved, j)
    {
      FixOne(buf, j, eo, es, kind, links, count, off0, entries, offs, moved, off);
    }
  }

  lemma EntryFields(m: bytes, o: nat, e: Entry)
    requires At(m, o, Encoded(e))
    ensures o + Size(e) <= |m| && Half(m[o..o + 2]) == |e.key| && Word(m[o + 2..o + 6]) == e.length
    ensures m[o + 6..o + 6 + |e.key|] == e.key && m[o + 6 + |e.key|..o + Size(e)] == e.payload
  {
    AtSplit(m, o, LE16(|e.key|) + LE32(e.length) + e.key, e.payload);
    AtSplit(m, o, LE16(|e.key|) + LE32(e.length), e.key);
    AtSplit(m, o, LE16(|e.key|), LE32(e.length));
    HalfAt(m, o, |e.key|);
    WordAt(m, o + 2, e.length);
  }

  /** The offset in a slot. */
  method SlotOf(buf: array<byte>, i: nat, ghost offs: seq<nat>) returns (o: nat)
    requires Slotted(buf[..], offs) && i < |offs|
    ensures o == offs[i]
  {
    assert SlotAt(buf[..], i, offs[i]);
    var at := HEADER + SLOT * i;
    HalfAt(buf[..], at, offs[i]);
    assert buf[at..at + 2] == buf[..][at..at + 2];
    o := Half(buf[at..at + 2]);
  }

  /** The bytes an entry occupies, from its length fields. */
  method SizeAt(buf: array<byte>, o: nat, ghost e: Entry) returns (size: nat)
    requires At(buf[..], o, Encoded(e))
    ensures size == Size(e)
  {
    EntryFields(buf[..], o, e);
    assert buf[o..o + 2] == buf[..][o..o + 2] && buf[o + 2..o + 6] == buf[..][o + 2..o + 6];
    var kl := Half(buf[o..o + 2]);
    var vl := Word(buf[o + 2..o + 6]);
    size := 6 + kl + if vl >= OVERFLOW then 8 else vl;
  }

  /** Slides the data below a removed entry over it. */
  method SlideData(buf: array<byte>, pos: nat, off: nat, eo: nat, es: nat, ghost kind: bytes, ghost links: bytes, ghost count: nat,
                   ghost entries: seq<Entry>, ghost offs: seq<nat>, ghost ns: seq<Entry>, ghost ws: seq<nat>, ghost os: seq<nat>)
    requires Framed(buf[..], kind, links, count, entries, offs, off) && pos < |offs| && eo == offs[pos] && es == Size(entries[pos])
    requires ns == Without(entries, pos) && ws == Without(offs, pos) && os == MovedAll(ws, eo, es) && Slotted(buf[..], ws)
    modifies buf
    ensures Headed(buf[..], kind, links, count, off) && Slotted(buf[..], ws) && Stored(buf[..], ns, os)
  {
    StoredSlid(buf[..], entries, offs, off, pos);
    var b := buf[off..eo];
    assert b == buf[..][off..eo];
    HeadedKept(buf[..], kind, links, count, off, off + es, b);
    SlottedKept(buf[..], ws, off + es, b);
    Store(buf, off + es, b);
  }

  /** Closes the gap in the slots and in the data. */
  method Squeeze(buf: array<byte>, pos: nat, count: nat, off: nat, eo: nat, es: nat, ghost kind: bytes, ghost links: bytes,
                 ghost entries: seq<Entry>, ghost offs: seq<nat>, ghost ns: seq<Entry>, ghost ws: seq<nat>, ghost os: seq<nat>)
    requires PageOk(buf[..], kind, links, entries, offs, off) && count == |entries| && pos < count
    requires eo == offs[pos] && es == Size(entries[pos])
    requires ns == Without(entries, pos) && ws == Without(offs, pos) && os == MovedAll(ws, eo, es)
    modifies buf
    ensures Headed(buf[..], kind, links, count, off) && Slotted(buf[..], ws) && Stored(buf[..], ns, os)
  {
    ShiftLeft(buf, pos, count, kind, links, entries, offs, off);
    SlideData(buf, pos, off, eo, es, kind, links, count, entries, offs, ns, ws, os);
  }

  /** Repoints the slots and writes the header. */
  method Settle(buf: array<byte>, n: nat, off: nat, eo: nat, es: nat, ghost kind: bytes, ghost links: bytes, ghost count: nat, ghost off0: nat,
                ghost ns: seq<Entry>, ghost ws: seq<nat>, ghost os: seq<nat>)
    requires Headed(buf[..], kind, links, count, off0) && Slotted(buf[..], ws) && Stored(buf[..], ns, os)
    requires Laid(ns, os, off) && n == |ws| == |ns| && os == MovedAll(ws, eo, es)
    modifies buf
    ensures PageOk(buf[..], kind, links, ns, os, off)
  {
    FixUp(buf, n, eo, es, kind, links, count, off0, ns, ws, os, off);
    SetHeader(buf, n, off, kind, links, count, off0, ns, os);
  }

  /** Takes out the entry at `pos`; every other entry keeps its bytes. */
  method Remove(buf: array<byte>, pos: nat, count: nat, off: nat, ghost kind: bytes, ghost links: bytes,
                ghost entries: seq<Entry>, ghost offs: seq<nat>) returns (es: nat, ghost os: seq<nat>)
    requires PageOk(buf[..], kind, links, entries, offs, off) && count == |entries| && pos < count
    modifies buf
    ensures es == Size(entries[pos]) && PageOk(buf[..], kind, links, Without(entries, pos), os, off + es)
  {
    var eo := SlotOf(buf, pos, offs);
    assert EntryAt(buf[..], entries, offs, pos);
    es := SizeAt(buf, eo, entries[pos]);
    LaidWithout(entries, offs, off, pos);
    ghost var ns, ws := Without(entries, pos), Without(offs, pos);
    os := MovedAll(ws, eo, es);
    Squeeze(buf, pos, count, off, eo, es, kind, links, entries, offs, ns, ws, os);
    Settle(buf, count - 1, off + es, eo, es, kind, links, count, off, ns, ws, os);
  }

  // ---- overwrite -------------------------------------------------------------------------------------

  lemma Overwritten(m: bytes, o: nat, e: Entry, value: bytes)
    requires At(m, o, Encoded(e)) && |value| == |e.payload|
    ensures var c := o + 6 + |e.key|; c + |value| <= |m| && At(Write(m, c, value), o, Encoded(Raw(e.key, e.length, value)))
  {
    var front := LE16(|e.key|) + LE32(e.length) + e.key;
    var c := o + |front|;
    AtSplit(m, o, front, e.payload);
    WriteAt(m, c, value);
    WriteKeeps(m, c, value, o, front);
    AtSplit(Write(m, c, value), o, front, value);
  }

  lemma {:induction false} TotalReplaced(entries: seq<Entry>, pos: nat, e: Entry)
    requires pos < |entries| && Size(e) == Size(entries[pos])
    ensures Total(entries[pos := e]) == Total(entries)
    decreases pos
  {
    if pos == 0 {
      assert entries[pos := e][1..] == entries[1..];
    } else {
      TotalReplaced(entries[1..], pos - 1, e);
      assert entries[pos := e][1..] == entries[1..][pos - 1 := e];
    }
  }

  lemma LaidReplaced(entries: seq<Entry>, offs: seq<nat>, off: nat, pos: nat, e: Entry)
    requires Laid(entries, offs, off) && pos < |entries| && Size(e) == Size(entries[pos])
    ensures Laid(entries[pos := e], offs, off)
  {
    TotalReplaced(entries, pos, e);
    var es := entries[pos := e];
    forall i, j | 0 <= i < j < |offs| ensures Clear(es, offs, i, j) {
      assert Clear(entries, offs, i, j);
    }
  }

  /** Writes a value of the same size over the old one. */
  method Overwrite(buf: array<byte>, pos: nat, value: bytes, ghost kind: bytes, ghost links: bytes,
                   ghost entries: seq<Entry>, ghost offs: seq<nat>, ghost off: nat)
    requires PageOk(buf[..], kind, links, entries, offs, off) && pos < |entries| && |value| == |entries[pos].payload|
    modifies buf
    ensures PageOk(buf[..], kind, links, entries[pos := Raw(entries[pos].key, entries[pos].length, value)], offs, off)
  {
    ghost var e: Entry := Raw(entries[pos].key, entries[pos].length, value);
    var o := SlotOf(buf, pos, offs);
    assert EntryAt(buf[..], entries, offs, pos);
    EntryFields(buf[..], o, entries[pos]);
    assert buf[o..o + 2] == buf[..][o..o + 2];
    var c := o + 6 + Half(buf[o..o + 2]);
    Overwritten(buf[..], o, entries[pos], value);
    LaidReplaced(entries, offs, off, pos, e);
    HeadedKept(buf[..], kind, links, |entries|, off, c, value);
    SlottedKept(buf[..], offs, c, value);
    StoredReplaced(buf[..], entries, offs, off, pos, c, value);
    Store(buf, c, value);
  }

  lemma StoredReplaced(m: bytes, entries: seq<Entry>, offs: seq<nat>, off: nat, pos: nat, c: nat, value: bytes)
    requires Laid(entries, offs, off) && Stored(m, entries, offs) && pos < |entries| && |m| == PAGE
    requires |value| == |entries[pos].payload| && c == offs[pos] + 6 + |entries[pos].key|
    ensures Stored(Write(m, c, value), entries[pos := Raw(entries[pos].key, entries[pos].length, value)], offs)
  {
    var es := entries[pos := Raw(entries[pos].key, entries[pos].length, value)];
    forall i | 0 <= i < |offs| ensures EntryAt(Write(m, c, value), es, offs, i) {
      assert EntryAt(m, entries, offs, i);
      if i == pos {
        Overwritten(m, offs[pos], entries[pos], value);
      } else {
        ClearOf(entries, offs, off, pos, i);
        WriteKeeps(m, c, value, offs[i], Encoded(entries[i]));
      }
    }
  }

  // ---- the page ------------------------------------------------------------------------------------------

  ghost predicate Ordered(entries: seq<Entry>) {
    forall i, j :: 0 <= i < j < |entries| ==> Lex.Less(entries[i].key, entries[j].key)
  }

  /** Every key before `i` is below `key` and every key from `i` on is not. */
  ghost predicate Splits(entries: seq<Entry>, key: bytes, i: nat) {
    && i <= |entries| && (forall j :: 0 <= j < i ==> Lex.Less(entries[j].key, key))
    && (forall j :: i <= j < |entries| ==> !Lex.Less(entries[j].key, key))
  }

  /** Binary search of the slots: the entry with the key, or where it would go. */
  method FindSlot(buf: array<byte>, count: nat, key: bytes, ghost entries: seq<Entry>, ghost offs: seq<nat>)
    returns (found: bool, i: nat)
    requires Slotted(buf[..], offs) && Stored(buf[..], entries, offs) && count == |entries| && Ordered(entries)
    ensures Splits(entries, key, i) && (found <==> i < count && entries[i].key == key)
  {
    var lo, hi := 0, count;
    while lo < hi
      invariant 0 <= lo <= hi <= count
      invariant forall j :: 0 <= j < lo ==> Lex.Less(entries[j].key, key)
      invariant forall j :: hi <= j < count ==> Lex.Less(key, entries[j].key)
    {
      var mid := lo + (hi - lo) / 2;
      var k := KeyAt(buf, mid, entries, offs);
      Lex.Total(k, key);
      if k == key {
        Exact(entries, key, mid);
        return true, mid;
      } else if Lex.Less(k, key) {
        Below(entries, key, mid);
        lo := mid + 1;
      } else {
        Above(entries, key, mid);
        hi := mid;
      }
    }
    forall j | lo <= j < count ensures !Lex.Less(entries[j].key, key) && entries[j].key != key {
      Lex.Total(entries[j].key, key);
    }
    return false, lo;
  }

  method KeyAt(buf: array<byte>, i: nat, ghost entries: seq<Entry>, ghost offs: seq<nat>) returns (k: bytes)
    requires Slotted(buf[..], offs) && Stored(buf[..], entries, offs) && i < |entries|
    ensures k == entries[i].key
  {
    var o := SlotOf(buf, i, offs);
    assert EntryAt(buf[..], entries, offs, i);
    EntryFields(buf[..], o, entries[i]);
    assert buf[o..o + 2] == buf[..][o..o + 2];
    var kl := Half(buf[o..o + 2]);
    assert buf[o + 6..o + 6 + kl] == buf[..][o + 6..o + 6 + kl];
    k := buf[o + 6..o + 6 + kl];
  }

  lemma Exact(entries: seq<Entry>, key: bytes, i: nat)
    requires Ordered(entries) && i < |entries| && entries[i].key == key
    ensures Splits(entries, key, i)
  {
    forall j | i <= j < |entries| ensures !Lex.Less(entries[j].key, key) {
      Lex.Total(entries[j].key, key);
    }
  }

  lemma Below(entries: seq<Entry>, key: bytes, mid: nat)
    requires Ordered(entries) && mid < |entries| && Lex.Less(entries[mid].key, key)
    ensures forall j :: 0 <= j <= mid ==> Lex.Less(entries[j].key, key)
  {
    forall j | 0 <= j < mid ensures Lex.Less(entries[j].key, key) {
      Lex.Transitive(entries[j].key, entries[mid].key, key);
    }
  }

  lemma Above(entries: seq<Entry>, key: bytes, mid: nat)
    requires Ordered(entries) && mid < |entries| && Lex.Less(key, entries[mid].key)
    ensures forall j :: mid <= j < |entries| ==> Lex.Less(key, entries[j].key)
  {
    forall j | mid < j < |entries| ensures Lex.Less(key, entries[j].key) {
      Lex.Transitive(key, entries[mid].key, entries[j].key);
    }
  }

  lemma OrderedInserted(entries: seq<Entry>, key: bytes, i: nat, e: Entry)
    requires Ordered(entries) && Splits(entries, key, i) && e.key == key && (i < |entries| ==> entries[i].key != key)
    ensures Ordered(Inserted(entries, i, e))
  {
    var es := Inserted(entries, i, e);
    forall x, y | 0 <= x < y < |es| ensures Lex.Less(es[x].key, es[y].key) {
      if x == i {
        Lex.Total(entries[y - 1].key, key);
        if y - 1 > i {
          Lex.Total(entries[i].key, key);
          Lex.Transitive(key, entries[i].key, entries[y - 1].key);
        }
      }
    }
  }

  lemma OrderedWithout(entries: seq<Entry>, i: nat)
    requires Ordered(entries) && i < |entries|
    ensures Ordered(Without(entries, i)) && Splits(Without(entries, i), entries[i].key, i)
    ensures i < |entries| - 1 ==> Without(entries, i)[i].key != entries[i].key
  {
    Lex.Total(entries[i].key, entries[i].key);
    forall j | i < j < |entries| ensures !Lex.Less(entries[j].key, entries[i].key) && entries[j].key != entries[i].key {
      Lex.Total(entries[j].key, entries[i].key);
    }
  }

  lemma InsertedBack(entries: seq<Entry>, i: nat, e: Entry)
    requires i < |entries|
    ensures Inserted(Without(entries, i), i, e) == entries[i := e]
  {
  }

  datatype Outcome = Done | NoRoom

  class LeafPage {
    const buf: array<byte>
    ghost var entries: seq<Entry>
    ghost var offs: seq<nat>
    ghost var off: nat
    ghost var kind: bytes
    ghost var links: bytes

    ghost predicate Valid()
      reads this, buf
    {
      buf.Length == PAGE && PageOk(buf[..], kind, links, entries, offs, off) && Ordered(entries)
    }

    method Header() returns (count: nat, start: nat)
      requires Valid()
      ensures count == |entries| && start == off
    {
      HalfAt(buf[..], 2, |entries|);
      WordAt(buf[..], 4, off);
      assert buf[2..4] == buf[..][2..4] && buf[4..8] == buf[..][4..8];
      count, start := Half(buf[2..4]), Word(buf[4..8]);
    }

    method Find(key: bytes) returns (found: bool, i: nat)
      requires Valid()
      ensures Splits(entries, key, i) && (found <==> i < |entries| && entries[i].key == key)
    {
      var count, start := Header();
      found, i := FindSlot(buf, count, key, entries, offs);
    }

    ghost method Adopt(es: seq<Entry>, os: seq<nat>, o: nat)
      requires buf.Length == PAGE && PageOk(buf[..], kind, links, es, os, o) && Ordered(es)
      modifies this`entries, this`offs, this`off
      ensures Valid() && entries == es && offs == os && off == o
    {
      entries, offs, off := es, os, o;
    }

    /** Inserts at a place of the order where the key belongs, if the page has room. */
    method InsertAt(i: nat, e: Entry) returns (r: Outcome)
      requires Valid() && Splits(entries, e.key, i) && (i < |entries| ==> entries[i].key != e.key)
      modifies this, buf
      ensures Valid() && kind == old(kind) && links == old(links)
      ensures r == if HEADER + SLOT * (old(|entries|) + 1) + Size(e) <= old(off) then Done else NoRoom
      ensures entries == if r.Done? then Inserted(old(entries), i, e) else old(entries)
      ensures r.NoRoom? ==> buf[..] == old(buf[..]) && HEADER + SLOT * (|entries| + 1) + Size(e) > PAGE - Total(entries)
    {
      var count, start := Header();
      if HEADER + SLOT * count + Size(e) + SLOT > start {
        return NoRoom;
      }
      OrderedInserted(entries, e.key, i, e);
      ghost var es, os := Inserted(entries, i, e), [];
      os := Insert(buf, i, e, count, start, kind, links, entries, offs);
      Adopt(es, os, start - Size(e));
      return Done;
    }

    method RemoveAt(i: nat)
      requires Valid() && i < |entries|
      modifies this, buf
      ensures Valid() && kind == old(kind) && links == old(links) && entries == Without(old(entries), i)
    {
      var count, start := Header();
      OrderedWithout(entries, i);
      var es;
      ghost var os;
      es, os := Remove(buf, i, count, start, kind, links, entries, offs);
      Adopt(Without(entries, i), os, start + es);
    }

    method Delete(key: bytes) returns (removed: bool)
      requires Valid()
      modifies this, buf
      ensures Valid() && kind == old(kind) && links == old(links)
      ensures removed <==> exists i :: 0 <= i < old(|entries|) && old(entries[i].key) == key
      ensures !removed ==> entries == old(entries) && buf[..] == old(buf[..])
      ensures removed ==> exists i :: 0 <= i < old(|entries|) && old(entries[i].key) == key && entries == Without(old(entries), i)
    {
      var i;
      removed, i := Find(key);
      if removed {
        RemoveAt(i);
      } else {
        forall j | 0 <= j < |entries| ensures entries[j].key != key {
          Lex.Total(key, key);
          if j > i {
            assert Lex.Less(entries[i].key, entries[j].key);
            Lex.Total(entries[i].key, key);
            Lex.Transitive(key, entries[i].key, entries[j].key);
          }
        }
      }
    }

    /** The length field of an entry. */
    method LengthAt(i: nat) returns (length: nat)
      requires Valid() && i < |entries|
      ensures length == entries[i].length
    {
      var o := SlotOf(buf, i, offs);
      assert EntryAt(buf[..], entries, offs, i);
      EntryFields(buf[..], o, entries[i]);
      assert buf[o + 2..o + 6] == buf[..][o + 2..o + 6];
      length := Word(buf[o + 2..o + 6]);
    }

    method OverwriteAt(i: nat, e: Entry)
      requires Valid() && i < |entries| && entries[i].key == e.key && entries[i].length == e.length
      modifies this, buf
      ensures Valid() && kind == old(kind) && links == old(links) && entries == old(entries)[i := e]
    {
      ghost var es := entries[i := e];
      Overwrite(buf, i, e.payload, kind, links, entries, offs, off);
      assert Ordered(es);
      Adopt(es, offs, off);
    }

    /** Replaces the entry with the same key: in place if the sizes agree, else out and in again. */
    method Replace(i: nat, e: Entry) returns (r: Outcome)
      requires Valid() && i < |entries| && entries[i].key == e.key
      modifies this, buf
      ensures Valid() && kind == old(kind) && links == old(links)
      ensures entries == if r.Done? then old(entries)[i := e] else Without(old(entries), i)
      ensures r.NoRoom? ==> HEADER + SLOT * (|entries| + 1) + Size(e) > PAGE - Total(entries)
    {
      var length := LengthAt(i);
      if length == e.length && length < OVERFLOW {
        OverwriteAt(i, e);
        return Done;
      }
      OrderedWithout(entries, i);
      InsertedBack(entries, i, e);
      RemoveAt(i);
      r := InsertAt(i, e);
    }

    /**
     Puts an entry: over the one with its key, or where its key belongs. Without room the page is left
     without the key, for the split that follows.
     */
    method Put(e: Entry) returns (r: Outcome, ghost i: nat)
      requires Valid()
      modifies this, buf
      ensures Valid() && kind == old(kind) && links == old(links) && Splits(old(entries), e.key, i)
      ensures var hit := i < old(|entries|) && old(entries)[i].key == e.key;
              && (r.Done? ==> entries == if hit then old(entries)[i := e] else Inserted(old(entries), i, e))
              && (r.NoRoom? ==> entries == if hit then Without(old(entries), i) else old(entries))
      ensures r.NoRoom? ==> HEADER + SLOT * (|entries| + 1) + Size(e) > PAGE - Total(entries)
    {
      var found, at := Find(e.key);
      i := at;
      if found {
        r := Replace(at, e);
      } else {
        r := InsertAt(at, e);
      }
    }

    /** An empty page. */
    constructor (flags: byte)
      ensures Valid() && entries == [] && off == PAGE && kind == [1, flags] && fresh(buf)
    {
      buf := new byte[PAGE](_ => 0);
      entries, offs, off, kind, links := [], [], PAGE, [1, flags], seq(16, _ => 0);
      new;
      assert At(buf[..], 8, links);
      FirstBytes(buf[..], [1, flags]);
      Store(buf, 0, [1, flags] + LE16(0) + LE32(PAGE));
    }
  }

  lemma FirstBytes(m: bytes, kind: bytes)
    requires |m| == PAGE && |kind| == 2 && At(m, 8, seq(16, _ => 0))
    ensures Headed(Write(m, 0, kind + LE16(0) + LE32(PAGE)), kind, seq(16, _ => 0), 0, PAGE)
  {
    var b := kind + LE16(0) + LE32(PAGE);
    var w := Write(m, 0, b);
    WriteAt(m, 0, b);
    WriteKeeps(m, 0, b, 8, seq(16, _ => 0));
    AtSplit(w, 0, kind + LE16(0), LE32(PAGE));
    AtSplit(w, 0, kind, LE16(0));
  }
}
