/** Splitting a full leaf at the byte midpoint. */
module LeafSplits {
  import opened Base
  import opened Bytes
  import opened LeafPages
  import Lex

  const ROOM: nat := PAGE - HEADER

  /** Entry and slot. */
  function Cost(e: Entry): nat {
    Size(e) + SLOT
  }

  /** The cost of the first `i` entries. */
  function Upto(es: seq<Entry>, i: nat): nat
    requires i <= |es|
  {
    if i == 0 then 0 else Upto(es, i - 1) + Cost(es[i - 1])
  }

  function Sum(es: seq<Entry>): nat {
    Upto(es, |es|)
  }

  lemma {:induction false} UptoAgree(a: seq<Entry>, b: seq<Entry>, i: nat)
    requires i <= |a| && i <= |b| && forall j :: 0 <= j < i ==> a[j] == b[j]
    ensures Upto(a, i) == Upto(b, i)
  {
    if i > 0 {
      UptoAgree(a, b, i - 1);
    }
  }

  lemma {:induction false} UptoShift(a: seq<Entry>, b: seq<Entry>, k: nat, i: nat)
    requires k <= |a| && i <= |b| && k + i <= |a| && forall j :: 0 <= j < i ==> b[j] == a[k + j]
    ensures Upto(a, k + i) == Upto(a, k) + Upto(b, i)
  {
    if i > 0 {
      UptoShift(a, b, k, i - 1);
    }
  }

  lemma {:induction false} UptoMonotone(es: seq<Entry>, i: nat, j: nat)
    requires i <= j <= |es|
    ensures Upto(es, i) <= Upto(es, j)
    decreases j
  {
    if i < j {
      UptoMonotone(es, i, j - 1);
    }
  }

  lemma TakeSum(es: seq<Entry>, a: seq<Entry>, i: nat)
    requires i <= |es| && a == es[..i]
    ensures Sum(a) == Upto(es, i)
  {
    UptoAgree(a, es, i);
  }

  lemma DropSum(es: seq<Entry>, b: seq<Entry>, i: nat)
    requires i <= |es| && b == es[i..]
    ensures Sum(es) == Upto(es, i) + Sum(b)
  {
    UptoShift(es, b, i, |b|);
  }

  lemma CostBound(es: seq<Entry>, i: nat)
    requires i < |es|
    ensures Cost(es[i]) <= Sum(es)
  {
    UptoMonotone(es, i + 1, |es|);
  }

  lemma SumInserted(es: seq<Entry>, pos: nat, e: Entry)
    requires pos <= |es|
    ensures Sum(Inserted(es, pos, e)) == Sum(es) + Cost(e)
  {
    var r := Inserted(es, pos, e);
    UptoAgree(r, es, pos);
    UptoShift(r, es[pos..], pos + 1, |es| - pos);
    UptoShift(es, es[pos..], pos, |es| - pos);
  }

  /** The costs of a page and its free space: what fits is what the slot test lets in. */
  lemma {:induction false} SumTotal(es: seq<Entry>)
    ensures Sum(es) == Total(es) + SLOT * |es|
  {
    if es != [] {
      var front, last := es[..|es| - 1], es[|es| - 1];
      SumTotal(front);
      UptoAgree(front, es, |front|);
      TotalInserted(front, |front|, last);
      assert Inserted(front, |front|, last) == es;
    }
  }

  /** Where the midpoint falls: the first entry at which half the bytes are reached, kept inside the list. */
  ghost predicate Midpoint(order: seq<Entry>, mid: nat) {
    && 1 <= mid < |order| && (mid > 1 ==> Upto(order, mid - 1) < Sum(order) / 2)
    && (Sum(order) / 2 <= Upto(order, mid) || mid == |order| - 1)
  }

  method FindMid(order: seq<Entry>) returns (mid: nat)
    requires |order| >= 2
    ensures Midpoint(order, mid)
  {
    var total := 0;
    for i := 0 to |order|
      invariant total == Upto(order, i)
    {
      total := total + Cost(order[i]);
    }
    var half, used, j := total / 2, 0, 0;
    mid := 1;
    while j < |order|
      invariant j <= |order| && used == Upto(order, j) && mid == 1 && (j > 0 ==> used < half)
    {
      used := used + Cost(order[j]);
      if used >= half {
        mid := j + 1;
        break;
      }
      j := j + 1;
    }
    if mid > |order| - 1 {
      mid := |order| - 1;
      UptoMonotone(order, |order| - 2, |order| - 1);
    }
  }

  // ---- when both halves fit -----------------------------------------------------------------

  /** The entry that crosses the midpoint does not fit behind those before it. */
  ghost predicate Straddles(order: seq<Entry>) {
    exists k :: 0 <= k < |order| - 1 && Straddle(order, k)
  }

  ghost predicate Straddle(order: seq<Entry>, k: nat)
    requires k < |order|
  {
    (k > 0 ==> Upto(order, k) < Sum(order) / 2) && Upto(order, k + 1) > ROOM
  }

  /** The right half always fits. */
  lemma RightFits(order: seq<Entry>, mid: nat)
    requires Midpoint(order, mid) && Sum(order) <= 2 * ROOM && Cost(order[|order| - 1]) <= ROOM
    ensures Upto(order, mid) <= Sum(order) <= Upto(order, mid) + ROOM
  {
    assert Sum(order) == Upto(order, |order| - 1) + Cost(order[|order| - 1]);
    UptoMonotone(order, mid, |order|);
  }

  lemma StraddleAt(order: seq<Entry>, mid: nat, k: nat)
    requires Midpoint(order, mid) && Sum(order) <= 2 * ROOM && k < |order| - 1 && Straddle(order, k)
    ensures Upto(order, mid) > ROOM
  {
    if k + 1 <= mid {
      UptoMonotone(order, k + 1, mid);
    } else {
      UptoMonotone(order, mid, k);
    }
  }

  /** The left half fits exactly unless an entry straddles the midpoint. */
  lemma LeftFits(order: seq<Entry>, mid: nat)
    requires Midpoint(order, mid) && Sum(order) <= 2 * ROOM
    ensures Upto(order, mid) <= ROOM <==> !Straddles(order)
  {
    if Upto(order, mid) > ROOM {
      assert Straddle(order, mid - 1);
    }
    if Straddles(order) {
      var k :| 0 <= k < |order| - 1 && Straddle(order, k);
      StraddleAt(order, mid, k);
    }
  }

  /** Entries of at most a third of a page never straddle the midpoint. */
  lemma ThirdsFit(order: seq<Entry>)
    requires 3 * Sum(order) <= 4 * ROOM && forall i :: 0 <= i < |order| ==> 3 * Cost(order[i]) <= ROOM
    ensures !Straddles(order)
  {
    forall k | 0 <= k < |order| - 1 ensures !Straddle(order, k) {
      assert Upto(order, k + 1) == Upto(order, k) + Cost(order[k]);
    }
  }

  /** Larger entries can: a big new entry between two that together left it no room. */
  lemma SplitOverflows(a: Entry, b: Entry, c: Entry)
    requires Cost(a) == 1000 && Cost(b) == 3500 && Cost(c) == 900
    ensures Sum([a, c]) <= ROOM && ROOM < Sum([a, b, c]) && Straddles([a, b, c])
  {
    var order, rest := [a, b, c], [a, c];
    assert Upto(order, 0) == 0 && Upto(order, 1) == 1000;
    assert Upto(order, 2) == 4500 && Upto(order, 3) == 5400;
    assert Upto(rest, 0) == 0 && Upto(rest, 1) == Upto(rest, 0) + Cost(rest[0]);
    assert Upto(rest, 2) == Upto(rest, 1) + Cost(rest[1]);
    assert Straddle(order, 1);
  }

  // ---- the split ------------------------------------------------------------------------------

  datatype Split = Repacked(order: seq<Entry>) | Halves(left: seq<Entry>, right: seq<Entry>, separator: bytes)

  /** Where a key belongs. */
  method Position(entries: seq<Entry>, key: bytes) returns (pos: nat)
    requires Ordered(entries)
    ensures Splits(entries, key, pos)
  {
    var lo, hi := 0, |entries|;
    while lo < hi
      invariant 0 <= lo <= hi <= |entries|
      invariant forall j :: 0 <= j < lo ==> Lex.Less(entries[j].key, key)
      invariant forall j :: hi <= j < |entries| ==> !Lex.Less(entries[j].key, key)
    {
      var mid := lo + (hi - lo) / 2;
      if Lex.Less(entries[mid].key, key) {
        Below(entries, key, mid);
        lo := mid + 1;
      } else {
        forall j | mid <= j < |entries| ensures !Lex.Less(entries[j].key, key) {
          if j > mid && Lex.Less(entries[j].key, key) {
            Lex.Transitive(entries[mid].key, entries[j].key, key);
          }
        }
        hi := mid;
      }
    }
    return lo;
  }

  /**
   Splits a leaf for one more entry: repacked when everything fits after all, otherwise two non-empty
   halves that together hold the entries in order, with the shortest separator between them.
   */
  method SplitLeaf(entries: seq<Entry>, e: Entry) returns (r: Split, ghost pos: nat)
    requires Ordered(entries) && Sum(entries) <= ROOM && Cost(e) <= ROOM && forall i :: 0 <= i < |entries| ==> entries[i].key != e.key
    ensures Splits(entries, e.key, pos) && Ordered(Inserted(entries, pos, e))
    ensures r.Repacked? <==> Sum(entries) + Cost(e) <= ROOM
    ensures r.Repacked? ==> r.order == Inserted(entries, pos, e)
    ensures r.Halves? ==> r.left != [] && r.right != [] && r.left + r.right == Inserted(entries, pos, e)
    ensures r.Halves? ==> Sum(r.right) <= ROOM && (Sum(r.left) <= ROOM <==> !Straddles(Inserted(entries, pos, e)))
    ensures r.Halves? ==> Lex.Less(r.left[|r.left| - 1].key, r.separator) && Lex.Leq(r.separator, r.right[0].key)
    ensures r.Halves? ==> forall t :: Lex.Less(r.left[|r.left| - 1].key, t) && Lex.Leq(t, r.right[0].key) ==> |r.separator| <= |t|
  {
    var at := Position(entries, e.key);
    pos := at;
    var order := Inserted(entries, at, e);
    OrderedInserted(entries, e.key, at, e);
    SumInserted(entries, at, e);
    if Sum(order) <= ROOM {
      return Repacked(order), at;
    }
    LastBound(entries, at, e);
    var left, right, separator := Halve(order);
    return Halves(left, right, separator), at;
  }

  method Between(order: seq<Entry>, mid: nat) returns (separator: bytes)
    requires Ordered(order) && 0 < mid < |order|
    ensures Lex.Less(order[mid - 1].key, separator) && Lex.Leq(separator, order[mid].key)
    ensures forall t :: Lex.Less(order[mid - 1].key, t) && Lex.Leq(t, order[mid].key) ==> |separator| <= |t|
  {
    assert Lex.Less(order[mid - 1].key, order[mid].key);
    separator := Lex.TruncatedSeparator(order[mid - 1].key, order[mid].key);
  }

  /** Cuts a list at its midpoint. */
  method Halve(order: seq<Entry>) returns (left: seq<Entry>, right: seq<Entry>, separator: bytes)
    requires Ordered(order) && |order| >= 2 && Sum(order) <= 2 * ROOM && Cost(order[|order| - 1]) <= ROOM
    ensures left != [] && right != [] && left + right == order
    ensures Sum(right) <= ROOM && (Sum(left) <= ROOM <==> !Straddles(order))
    ensures Lex.Less(left[|left| - 1].key, separator) && Lex.Leq(separator, right[0].key)
    ensures forall t :: Lex.Less(left[|left| - 1].key, t) && Lex.Leq(t, right[0].key) ==> |separator| <= |t|
  {
    var mid := FindMid(order);
    separator := Between(order, mid);
    left, right := order[..mid], order[mid..];
    HalfSizes(order, mid, left, right);
  }

  lemma HalfSizes(order: seq<Entry>, mid: nat, left: seq<Entry>, right: seq<Entry>)
    requires Midpoint(order, mid) && Sum(order) <= 2 * ROOM && Cost(order[|order| - 1]) <= ROOM
    requires left == order[..mid] && right == order[mid..]
    ensures Sum(right) <= ROOM && (Sum(left) <= ROOM <==> !Straddles(order))
  {
    RightFits(order, mid);
    LeftFits(order, mid);
    TakeSum(order, left, mid);
    DropSum(order, right, mid);
  }

  lemma LastBound(entries: seq<Entry>, pos: nat, e: Entry)
    requires Sum(entries) <= ROOM && Cost(e) <= ROOM && pos <= |entries|
    ensures Cost(Inserted(entries, pos, e)[|entries|]) <= ROOM
  {
    if pos < |entries| {
      CostBound(entries, |entries| - 1);
    }
  }

  /** A page whose entries, old and new, are at most a third of it splits into two that fit. */
  lemma SplitFits(entries: seq<Entry>, pos: nat, e: Entry)
    requires pos <= |entries| && Sum(entries) <= ROOM && 3 * Cost(e) <= ROOM
    requires forall i :: 0 <= i < |entries| ==> 3 * Cost(entries[i]) <= ROOM
    ensures !Straddles(Inserted(entries, pos, e))
  {
    SumInserted(entries, pos, e);
    ThirdsFit(Inserted(entries, pos, e));
  }
}
