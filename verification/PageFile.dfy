/** The page freelist of the tree file, threaded through the pages themselves. */
module PageFiles {
  import opened Base

  predicate Free(next: seq<nat>, p: nat) {
    1 <= p < |next|
  }

  /** The list from `head` visits exactly `chain` and ends. */
  ghost predicate Threaded(next: seq<nat>, head: nat, chain: seq<nat>) {
    && head == (if chain == [] then 0 else chain[0])
    && (forall i :: 0 <= i < |chain| ==> Free(next, chain[i]))
    && (forall i, j :: 0 <= i < j < |chain| && j == i + 1 ==> next[chain[i]] == chain[j])
    && (chain != [] ==> next[chain[|chain| - 1]] == 0)
    && (forall i, j :: 0 <= i < j < |chain| ==> chain[i] != chain[j])
  }

  /** Pages `k`, `k + 1`, … of the chain, `m` of them, are numbered downwards without a gap. */
  ghost predicate Run(chain: seq<nat>, k: nat, m: nat) {
    k + m <= |chain| && forall i, j :: k <= i < j < k + m && j == i + 1 ==> chain[j] + 1 == chain[i]
  }

  lemma {:induction false} RunDown(chain: seq<nat>, k: nat, m: nat, i: nat)
    requires Run(chain, k, m) && k <= i < k + m
    ensures chain[i] + (i - k) == chain[k]
    decreases i
  {
    if i > k {
      assert chain[i] + 1 == chain[i - 1];
      RunDown(chain, k, m, i - 1);
    }
  }

  lemma RunMore(chain: seq<nat>, k: nat, m: nat)
    requires Run(chain, k, m) && m > 0 && k + m < |chain|
    ensures Run(chain, k, m + 1) <==> chain[k + m] + 1 == chain[k + m - 1]
  {
  }

  lemma RunStops(chain: seq<nat>, k: nat, m: nat, n: nat)
    requires !Run(chain, k, m + 1) && m < n
    ensures !Run(chain, k, n)
  {
  }

  /** A list of distinct pages is shorter than the file. */
  lemma {:induction false} Short(chain: seq<nat>, n: nat)
    requires n >= 1 && (forall i :: 0 <= i < |chain| ==> 1 <= chain[i] < n)
    requires forall i, j :: 0 <= i < j < |chain| ==> chain[i] != chain[j]
    ensures |chain| < n
    decreases n
  {
    if n > 1 {
      if n - 1 in chain {
        var k :| 0 <= k < |chain| && chain[k] == n - 1;
        var rest := chain[..k] + chain[k + 1..];
        forall i | 0 <= i < |rest| ensures rest[i] == chain[if i < k then i else i + 1] && 1 <= rest[i] < n - 1 {
        }
        Short(rest, n - 1);
      } else {
        forall i | 0 <= i < |chain| ensures chain[i] < n - 1 {
          assert chain[i] in chain;
        }
        Short(chain, n - 1);
      }
    }
  }

  lemma Follow(next: seq<nat>, head: nat, chain: seq<nat>, i: nat)
    requires Threaded(next, head, chain) && i < |chain|
    ensures chain[i] < |next| && next[chain[i]] == if i + 1 < |chain| then chain[i + 1] else 0
    ensures next[chain[i]] == 0 <==> i + 1 == |chain|
  {
    if i + 1 < |chain| {
      assert next[chain[i]] == chain[i + 1];
      assert Free(next, chain[i + 1]);
    }
  }

  /** The longest downward run from a page of the chain, up to `n` pages. */
  method RunFrom(next: seq<nat>, cur: nat, n: nat, ghost head: nat, ghost chain: seq<nat>, ghost k: nat) returns (len: nat, last: nat)
    requires Threaded(next, head, chain) && k < |chain| && cur == chain[k] && n >= 1
    ensures 1 <= len <= n && Run(chain, k, len) && last == chain[k + len - 1]
    ensures len == n <==> Run(chain, k, n)
  {
    len, last := 1, cur;
    while len < n
      invariant 1 <= len <= n && Run(chain, k, len) && last == chain[k + len - 1]
    {
      Follow(next, head, chain, k + len - 1);
      var following := next[last];
      if following == 0 || following + 1 != last {
        if k + len < |chain| {
          RunMore(chain, k, len);
        }
        RunStops(chain, k, len, n);
        return;
      }
      RunMore(chain, k, len);
      last, len := following, len + 1;
    }
  }

  /** The first place of the chain where a run of `n` pages starts, with the page before it. */
  method FindRun(next: seq<nat>, head: nat, n: nat, ghost chain: seq<nat>)
    returns (found: bool, prev: Option<nat>, last: nat, ghost k: nat)
    requires Threaded(next, head, chain) && n >= 1
    ensures found ==> Run(chain, k, n) && last == chain[k + n - 1] && prev == (if k == 0 then None else Some(chain[k - 1]))
    ensures !found ==> forall j :: !Run(chain, j, n)
    ensures found ==> forall j :: 0 <= j < k ==> !Run(chain, j, n)
  {
    var cur, scanned := head, 0;
    k, prev, last, found := 0, None, 0, false;
    assert forall i :: 0 <= i < |chain| ==> Free(next, chain[i]);
    if |next| > 0 {
      Short(chain, |next|);
    }
    while cur != 0 && scanned < |next|
      invariant scanned == k <= |chain| && cur == (if k == |chain| then 0 else chain[k])
      invariant prev == if k == 0 then None else Some(chain[k - 1])
      invariant forall j :: 0 <= j < k ==> !Run(chain, j, n)
      decreases |chain| - k
    {
      var len;
      len, last := RunFrom(next, cur, n, head, chain, k);
      if len == n {
        found := true;
        return;
      }
      Follow(next, head, chain, k);
      prev, cur, k, scanned := Some(cur), next[cur], k + 1, scanned + 1;
    }
  }

  /** Cutting a stretch out of the chain leaves the rest of it threaded. */
  lemma Unlinked(next: seq<nat>, head: nat, chain: seq<nat>, k: nat, n: nat, next': seq<nat>, head': nat)
    requires Threaded(next, head, chain) && k + n <= |chain| && n >= 1
    requires var after := if k + n < |chain| then chain[k + n] else 0;
             if k == 0 then next' == next && head' == after
             else chain[k - 1] < |next| && next' == next[chain[k - 1] := after] && head' == head
    ensures Threaded(next', head', chain[..k] + chain[k + n..])
  {
    var rest := chain[..k] + chain[k + n..];
    forall i | 0 <= i < |rest| ensures rest[i] == chain[if i < k then i else i + n] {
    }
    forall i, j | 0 <= i < j < |rest| && j == i + 1 ensures next'[rest[i]] == rest[j] {
      if i + 1 != k {
        var x := if i < k then i else i + n;
        assert next[chain[x]] == chain[x + 1];
      }
    }
  }

  lemma Pushed(next: seq<nat>, head: nat, chain: seq<nat>, p: nat)
    requires Threaded(next, head, chain) && Free(next, p) && p !in chain
    ensures Threaded(next[p := head], p, [p] + chain)
  {
    var next', chain' := next[p := head], [p] + chain;
    forall i | 0 <= i < |chain| ensures chain'[i + 1] == chain[i] && chain[i] != p {
      assert chain[i] in chain;
    }
    forall i, j | 0 <= i < j < |chain'| && j == i + 1 ensures next'[chain'[i]] == chain'[j] {
      if i > 0 {
        assert next[chain[i - 1]] == chain[j - 1];
      }
    }
  }

  lemma Extended(next: seq<nat>, head: nat, chain: seq<nat>, more: seq<nat>)
    requires Threaded(next, head, chain)
    ensures Threaded(next + more, head, chain)
  {
  }

  /** The pages in use: all but the meta page and those on the freelist. */
  ghost function InUse(total: nat, chain: seq<nat>): set<nat> {
    set p: nat | 1 <= p < total && p !in chain
  }

  /** The pages of an extent. */
  ghost function Pages(start: nat, n: nat): (s: set<nat>)
    ensures forall p :: p in s <==> start <= p < start + n
  {
    if n == 0 then {} else Pages(start, n - 1) + {start + n - 1}
  }

  lemma InUseGrown(next: seq<nat>, head: nat, chain: seq<nat>, n: nat)
    requires Threaded(next, head, chain) && |next| >= 1
    ensures InUse(|next| + n, chain) == InUse(|next|, chain) + Pages(|next|, n)
  {
    forall p | p in chain ensures p < |next| {
      var i :| 0 <= i < |chain| && chain[i] == p;
      assert Free(next, chain[i]);
    }
  }

  /** Taking a run off the list puts exactly its pages in use. */
  lemma InUseCut(next: seq<nat>, head: nat, chain: seq<nat>, k: nat, n: nat)
    requires Threaded(next, head, chain) && Run(chain, k, n) && n >= 1
    ensures var start := chain[k + n - 1];
            && InUse(|next|, chain[..k] + chain[k + n..]) == InUse(|next|, chain) + Pages(start, n)
            && InUse(|next|, chain) !! Pages(start, n)
  {
    var start, rest := chain[k + n - 1], chain[..k] + chain[k + n..];
    RunDown(chain, k, n, k + n - 1);
    forall p | p in chain ensures p in rest || p in Pages(start, n) {
      var i :| 0 <= i < |chain| && chain[i] == p;
      if i < k {
        assert rest[i] == p;
      } else if i >= k + n {
        assert rest[i - n] == p;
      } else {
        RunDown(chain, k, n, i);
      }
    }
    forall p | p in Pages(start, n) ensures 1 <= p < |next| && p in chain && p !in rest {
      var x := k + (start + n - 1 - p);
      RunDown(chain, k, n, x);
      assert Free(next, chain[x]);
      assert forall i :: 0 <= i < |rest| ==> rest[i] == chain[if i < k then i else i + n];
    }
  }

  lemma RunOfOne(chain: seq<nat>)
    requires chain != []
    ensures Run(chain, 0, 1) && chain[..0] + chain[1..] == chain[1..]
  {
  }

  class PageFile {
    /** The first word of every page; page zero is the meta page. */
    var next: seq<nat>
    var head: nat
    var freePages: nat
    ghost var chain: seq<nat>

    ghost predicate Valid()
      reads this
    {
      |next| >= 1 && Threaded(next, head, chain) && freePages == |chain|
    }

    ghost function Live(): set<nat>
      reads this
    {
      InUse(|next|, chain)
    }

    constructor (pages: nat)
      requires pages >= 1
      ensures Valid() && |next| == pages && chain == []
    {
      next, head, freePages, chain := seq(pages, _ => 0), 0, 0, [];
    }

    method Become(n: seq<nat>, h: nat, f: nat, ghost c: seq<nat>)
      modifies this
      ensures next == n && head == h && freePages == f && chain == c
    {
      next, head, freePages, chain := n, h, f, c;
    }

    /** Takes the head of the freelist, or a new page at the end of the file. */
    method AllocPage() returns (p: nat)
      requires Valid()
      modifies this
      ensures Valid() && p !in old(Live()) && Live() == old(Live()) + {p}
      ensures if old(chain) == [] then p == old(|next|) && |next| == p + 1 && chain == []
              else p == old(chain)[0] && chain == old(chain)[1..] && |next| == old(|next|)
    {
      assert forall i :: 0 <= i < |chain| ==> Free(next, chain[i]);
      if head != 0 {
        p := head;
        RunOfOne(chain);
        InUseCut(next, head, chain, 0, 1);
        assert Pages(p, 1) == {p};
        Follow(next, head, chain, 0);
        Unlinked(next, head, chain, 0, 1, next, next[p]);
        Become(next, next[p], freePages - 1, chain[1..]);
      } else {
        p := Grow(1);
        assert Pages(p, 1) == {p};
      }
    }

    /** Adds pages at the end of the file. */
    method Grow(n: nat) returns (start: nat)
      requires Valid()
      modifies this
      ensures Valid() && start == old(|next|) && |next| == start + n && chain == old(chain)
      ensures Live() == old(Live()) + Pages(start, n) && old(Live()) !! Pages(start, n)
    {
      start := |next|;
      InUseGrown(next, head, chain, n);
      var more := seq(n, _ => 0);
      Extended(next, head, chain, more);
      Become(next + more, head, freePages, chain);
    }

    /** Puts a page on the freelist. */
    method FreePage(p: nat)
      requires Valid() && p in Live()
      modifies this
      ensures Valid() && chain == [p] + old(chain) && |next| == old(|next|) && Live() == old(Live()) - {p}
    {
      Pushed(next, head, chain, p);
      Become(next[p := head], p, freePages + 1, [p] + chain);
    }

    /** Relinks the list around a run found in it. */
    method Unlink(n: nat, prev: Option<nat>, last: nat, ghost k: nat)
      requires Valid() && n >= 1 && Run(chain, k, n) && last == chain[k + n - 1]
      requires prev == if k == 0 then None else Some(chain[k - 1])
      modifies this
      ensures Valid() && |next| == old(|next|) && chain == old(chain)[..k] + old(chain)[k + n..]
    {
      Follow(next, head, chain, k + n - 1);
      var after := next[last];
      ghost var cut := chain[..k] + chain[k + n..];
      if prev.Some? {
        Follow(next, head, chain, k - 1);
        Unlinked(next, head, chain, k, n, next[prev.value := after], head);
        Become(next[prev.value := after], head, freePages - n, cut);
      } else {
        Unlinked(next, head, chain, k, n, next, after);
        Become(next, after, freePages - n, cut);
      }
    }

    /** Takes the first run of `n` pages off the freelist, if it holds one. */
    method AllocRun(n: nat) returns (r: Option<nat>, ghost k: nat)
      requires Valid()
      modifies this
      ensures Valid() && |next| == old(|next|)
      ensures r.None? ==> unchanged(this) && (n == 0 || forall j :: !Run(chain, j, n))
      ensures r.Some? ==> n > 0 && Run(old(chain), k, n) && (forall j :: 0 <= j < k ==> !Run(old(chain), j, n))
      ensures r.Some? ==> r.value == old(chain)[k + n - 1] && chain == old(chain)[..k] + old(chain)[k + n..]
      ensures r.Some? ==> Live() == old(Live()) + Pages(r.value, n) && old(Live()) !! Pages(r.value, n)
    {
      k := 0;
      if n == 0 {
        return None, 0;
      }
      var found, prev, last;
      found, prev, last, k := FindRun(next, head, n, chain);
      if !found {
        return None, 0;
      }
      InUseCut(next, head, chain, k, n);
      Unlink(n, prev, last, k);
      return Some(last), k;
    }

    /** Contiguous pages: a run from the freelist if there is one, new pages otherwise. */
    method AllocExtent(n: nat) returns (start: nat)
      requires Valid()
      modifies this
      ensures Valid() && Live() == old(Live()) + Pages(start, n) && old(Live()) !! Pages(start, n)
      ensures n > 0 && (exists k :: Run(old(chain), k, n)) ==> |next| == old(|next|) && |chain| == old(|chain|) - n
      ensures n == 0 || !(exists k :: Run(old(chain), k, n)) ==> start == old(|next|) && |next| == start + n && chain == old(chain)
      ensures Run(old(chain), 0, n) && n > 0 ==> start == old(chain)[n - 1] && chain == old(chain)[n..] && |next| == old(|next|)
    {
      var run;
      ghost var k;
      run, k := AllocRun(n);
      if run.Some? {
        start := run.value;
        assert Run(old(chain), 0, n) ==> k == 0;
      } else {
        start := Grow(n);
      }
    }

    /** Frees the pages of an extent one by one. */
    method FreeExtent(start: nat, n: nat)
      requires Valid() && Pages(start, n) <= Live()
      modifies this
      ensures Valid() && |next| == old(|next|) && chain == Down(start, n) + old(chain) && Live() == old(Live()) - Pages(start, n)
    {
      ghost var before := chain;
      assert Down(start, 0) + chain == chain;
      for i := 0 to n
        invariant Valid() && |next| == old(|next|) && chain == Down(start, i) + before
      {
        DownFree(|next|, before, start, i, n);
        DownMore(start, i, before);
        FreePage(start + i);
      }
      InUseDown(|next|, before, start, n);
    }

    /** An extent freed and one of the same size allocated next is the same extent. */
    method Recycle(start: nat, n: nat) returns (again: nat)
      requires Valid() && n > 0 && Pages(start, n) <= Live()
      modifies this
      ensures Valid() && again == start && chain == old(chain) && |next| == old(|next|) && Live() == old(Live())
    {
      FreeExtent(start, n);
      assert Run(chain, 0, n);
      assert chain[n..] == old(chain);
      again := AllocExtent(n);
    }
  }

  /** The pages of an extent in the order the freelist holds them after it is freed. */
  function Down(start: nat, n: nat): (s: seq<nat>)
    ensures |s| == n && forall i :: 0 <= i < n ==> s[i] == start + n - 1 - i
  {
    seq(n, i requires 0 <= i < n => start + n - 1 - i)
  }

  lemma DownFree(total: nat, chain: seq<nat>, start: nat, i: nat, n: nat)
    requires Pages(start, n) <= InUse(total, chain) && i < n
    ensures start + i in InUse(total, Down(start, i) + chain)
  {
    assert start + i in Pages(start, n);
  }

  lemma InUseDown(total: nat, chain: seq<nat>, start: nat, n: nat)
    requires Pages(start, n) <= InUse(total, chain)
    ensures InUse(total, Down(start, n) + chain) == InUse(total, chain) - Pages(start, n)
  {
    forall p: nat ensures p in Down(start, n) <==> p in Pages(start, n) {
      if start <= p < start + n {
        assert Down(start, n)[start + n - 1 - p] == p;
      }
    }
  }

  lemma DownMore(start: nat, n: nat, rest: seq<nat>)
    ensures Down(start, n + 1) + rest == [start + n] + (Down(start, n) + rest)
  {
  }
}
