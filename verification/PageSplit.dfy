/** The split of a full leaf on the bytes of its page: read out, reset, and written back in two halves. */
module PageSplits {
  import opened Base
  import opened Bytes
  import opened LeafPages
  import opened LeafSplits
  import Lex

  /** Reads an entry off the page. */
  method ReadEntry(page: LeafPage, i: nat) returns (e: Entry)
    requires page.Valid() && i < |page.entries|
    ensures e == page.entries[i]
  {
    var o := SlotOf(page.buf, i, page.offs);
    assert EntryAt(page.buf[..], page.entries, page.offs, i);
    EntryFields(page.buf[..], o, page.entries[i]);
    var m := page.buf[..];
    var kl, length := Half(m[o..o + 2]), Word(m[o + 2..o + 6]);
    e := Raw(m[o + 6..o + 6 + kl], length, m[o + 6 + kl..o + 6 + kl + PayloadSize(length)]);
  }

  /** Takes a copy of all entries. */
  method ReadAll(page: LeafPage) returns (entries: seq<Entry>)
    requires page.Valid()
    ensures entries == page.entries
  {
    entries := [];
    var count, off := page.Header();
    for i := 0 to count
      invariant entries == page.entries[..i]
    {
      var e := ReadEntry(page, i);
      entries := entries + [e];
    }
    assert page.entries[..count] == page.entries;
  }

  /** Makes the page empty; its flags and links stay. */
  method Reset(page: LeafPage)
    requires page.Valid()
    modifies page, page.buf
    ensures page.Valid() && page.entries == [] && page.kind == old(page.kind) && page.links == old(page.links)
  {
    assert Stored(page.buf[..], [], []) && Slotted(page.buf[..], []);
    SetHeader(page.buf, 0, PAGE, page.kind, page.links, |page.entries|, page.off, [], []);
    page.Adopt([], [], PAGE);
  }

  lemma RoomFor(entries: seq<Entry>, e: Entry, all: seq<Entry>, i: nat)
    requires i < |all| && entries == all[..i] && e == all[i] && Sum(all) <= ROOM
    ensures HEADER + SLOT * (|entries| + 1) + Size(e) <= PAGE - Total(entries)
  {
    SumTotal(entries);
    UptoAgree(entries, all, i);
    UptoMonotone(all, i + 1, |all|);
  }

  lemma AppendPlace(entries: seq<Entry>, i: nat)
    requires Ordered(entries) && i < |entries|
    ensures Splits(entries[..i], entries[i].key, i) && Inserted(entries[..i], i, entries[i]) == entries[..i + 1]
  {
  }

  method AppendOne(page: LeafPage, entries: seq<Entry>, i: nat)
    requires page.Valid() && i < |entries| && page.entries == entries[..i] && Ordered(entries) && Sum(entries) <= ROOM
    modifies page, page.buf
    ensures page.Valid() && page.entries == entries[..i + 1] && page.kind == old(page.kind) && page.links == old(page.links)
  {
    RoomFor(page.entries, entries[i], entries, i);
    AppendPlace(entries, i);
    var r := page.InsertAt(i, entries[i]);
  }

  /** Writes entries to an empty page, one after the other. */
  method AppendAll(page: LeafPage, entries: seq<Entry>)
    requires page.Valid() && page.entries == [] && Ordered(entries) && Sum(entries) <= ROOM
    modifies page, page.buf
    ensures page.Valid() && page.entries == entries && page.kind == old(page.kind) && page.links == old(page.links)
  {
    for i := 0 to |entries|
      invariant page.Valid() && page.entries == entries[..i] && page.kind == old(page.kind) && page.links == old(page.links)
    {
      AppendOne(page, entries, i);
    }
    assert entries[..|entries|] == entries;
  }

  lemma BothOrdered(order: seq<Entry>, left: seq<Entry>, right: seq<Entry>)
    requires Ordered(order) && left + right == order
    ensures Ordered(left) && Ordered(right)
  {
    forall i, j | 0 <= i < j < |left| ensures Lex.Less(left[i].key, left[j].key) {
      assert order[i] == left[i] && order[j] == left[j];
    }
    forall i, j | 0 <= i < j < |right| ensures Lex.Less(right[i].key, right[j].key) {
      assert order[|left| + i] == right[i] && order[|left| + j] == right[j];
    }
  }

  /**
   Splits the page for one more entry. If everything fits after all it is packed again; if a half would overflow its
   page nothing is written; otherwise the page keeps the left half and the empty page `right` gets the other.
   */
  method SplitPage(page: LeafPage, right: LeafPage, e: Entry) returns (sep: Option<bytes>, ghost order: seq<Entry>)
    requires page.Valid() && right.Valid() && right.entries == [] && page != right && page.buf != right.buf
    requires Cost(e) <= ROOM && forall i :: 0 <= i < |page.entries| ==> page.entries[i].key != e.key
    modifies page, page.buf, right, right.buf
    ensures page.Valid() && right.Valid() && page.links == old(page.links) && right.links == old(right.links)
    ensures Ordered(order) && exists pos :: Splits(old(page.entries), e.key, pos) && order == Inserted(old(page.entries), pos, e)
    ensures sep.Some? <==> Sum(order) > ROOM && !Straddles(order)
    ensures Sum(order) <= ROOM ==> page.entries == order && right.entries == []
    ensures Sum(order) > ROOM && Straddles(order) ==> page.entries == old(page.entries) && right.entries == []
    ensures sep.Some? ==> page.entries != [] && right.entries != [] && page.entries + right.entries == order
    ensures sep.Some? ==> Lex.Less(page.entries[|page.entries| - 1].key, sep.value) && Lex.Leq(sep.value, right.entries[0].key)
  {
    PageSum(page.buf[..], page.kind, page.links, page.entries, page.offs, page.off);
    var entries := ReadAll(page);
    var split;
    ghost var pos;
    split, pos := SplitLeaf(entries, e);
    order := Inserted(entries, pos, e);
    SumInserted(entries, pos, e);
    sep := None;
    match split
    case Repacked(all) =>
      Reset(page);
      AppendAll(page, all);
    case Halves(a, b, s) =>
      if Sum(a) <= ROOM {
        BothOrdered(order, a, b);
        Reset(page);
        AppendAll(page, a);
        AppendAll(right, b);
        sep := Some(s);
      }
  }

  /** The entries of a page are within its size. */
  lemma PageSum(m: bytes, kind: bytes, links: bytes, entries: seq<Entry>, offs: seq<nat>, off: nat)
    requires PageOk(m, kind, links, entries, offs, off)
    ensures Sum(entries) <= ROOM
  {
    SumTotal(entries);
  }
}
