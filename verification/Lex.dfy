/** The byte order of encoded keys, and the separators between pages. */
module Lex {
  import opened Bytes

  /** Lexicographic order: a proper prefix comes first. */
  predicate Less(a: bytes, b: bytes) {
    if b == [] then false
    else if a == [] then true
    else if a[0] == b[0] then Less(a[1..], b[1..])
    else a[0] < b[0]
  }

  predicate Leq(a: bytes, b: bytes) {
    a == b || Less(a, b)
  }

  lemma {:induction false} Total(a: bytes, b: bytes)
    ensures Less(a, b) || a == b || Less(b, a)
    ensures !(Less(a, b) && Less(b, a)) && !Less(a, a)
  {
    if a != [] {
      Total(a[1..], if b != [] && b[0] == a[0] then b[1..] else a[1..]);
      if b != [] && b[0] == a[0] {
        assert a == [a[0]] + a[1..] && b == [b[0]] + b[1..];
      }
    }
  }

  lemma {:induction false} Transitive(a: bytes, b: bytes, c: bytes)
    requires Less(a, b) && Less(b, c)
    ensures Less(a, c)
  {
    if a != [] && a[0] == b[0] == c[0] {
      Transitive(a[1..], b[1..], c[1..]);
    }
  }

  lemma LeqLess(a: bytes, b: bytes, c: bytes)
    requires (Leq(a, b) && Less(b, c)) || (Less(a, b) && Leq(b, c))
    ensures Less(a, c)
  {
    if a != b && b != c {
      Transitive(a, b, c);
    }
  }

  lemma {:induction false} Common(p: bytes, a: bytes, b: bytes)
    ensures Less(p + a, p + b) == Less(a, b)
  {
    if p == [] {
      assert p + a == a && p + b == b;
    } else {
      Common(p[1..], a, b);
      assert (p + a)[1..] == p[1..] + a && (p + b)[1..] == p[1..] + b;
    }
  }

  /** What lies between two strings with a common prefix is longer than that prefix. */
  lemma {:induction false} Squeezed(a: bytes, b: bytes, t: bytes, i: nat)
    requires i <= |a| && i <= |b| && a[..i] == b[..i] && Less(a, t) && !Less(b, t)
    ensures |t| > i
    decreases i
  {
    if i == 0 {
      assert t != [];
    } else {
      assert a[0] == a[..i][0] == b[..i][0] == b[0];
      assert t[0] == a[0];
      assert a[1..][..i - 1] == a[..i][1..] && b[1..][..i - 1] == b[..i][1..];
      Squeezed(a[1..], b[1..], t[1..], i - 1);
    }
  }

  /** If `left` comes first and they agree up to `i`, the first difference favours `right`. */
  lemma FirstDifference(left: bytes, right: bytes, i: nat)
    requires Less(left, right) && i <= |left| && i <= |right| && left[..i] == right[..i]
    ensures i < |right|
    ensures i < |left| ==> left[i] <= right[i]
    ensures i < |left| && left[i] == right[i] ==> left[..i + 1] == right[..i + 1]
  {
    Common(left[..i], left[i..], right[i..]);
    assert left == left[..i] + left[i..] && right == left[..i] + right[i..];
  }

  lemma CutAt(left: bytes, right: bytes, i: nat)
    requires i < |left| && i < |right| && left[..i] == right[..i] && left[i] < right[i]
    ensures Less(left, right[..i + 1]) && Leq(right[..i + 1], right)
  {
    var p := left[..i];
    Common(p, left[i..], [right[i]]);
    assert left == p + left[i..] && right[..i + 1] == p + [right[i]];
    Common(right[..i + 1], [], right[i + 1..]);
    assert right == right[..i + 1] + right[i + 1..] && right[..i + 1] == right[..i + 1] + [];
  }

  lemma Extended(left: bytes, rest: bytes)
    requires Less(left, left + rest)
    ensures rest != [] && Less(left, left + [0]) && Leq(left + [0], left + rest)
  {
    assert left + [] == left;
    Common(left, [], rest);
    Common(left, [], [0]);
    Common(left, [0], rest);
    assert rest == [rest[0]] + rest[1..];
  }

  /**
   A separator for two neighbouring pages: above every key of the left page and not above any key of
   the right one, and no shorter string would do. It is a prefix of the right key exactly unless the
   left key is one and is followed there by a byte other than zero.
   */
  method TruncatedSeparator(left: bytes, right: bytes) returns (s: bytes)
    requires Less(left, right)
    ensures Less(left, s) && Leq(s, right) && |s| <= |left| + 1
    ensures forall t :: Less(left, t) && Leq(t, right) ==> |s| <= |t|
    ensures s <= right <==> !(left < right && right[|left|] != 0)
  {
    var n := if |left| < |right| then |left| else |right|;
    for i := 0 to n
      invariant left[..i] == right[..i]
    {
      FirstDifference(left, right, i);
      if right[i] > left[i] {
        CutAt(left, right, i);
        assert !(left < right);
        s := right[..i + 1];
        forall t | Less(left, t) && Leq(t, right) ensures |s| <= |t| {
          Total(t, right);
          Squeezed(left, right, t, i);
        }
        return;
      }
    }
    FirstDifference(left, right, n);
    assert left[..|left|] == left && right == left + right[|left|..];
    Extended(left, right[|left|..]);
    s := left + [0];
    assert s <= right <==> right[|left|] == 0;
    forall t | Less(left, t) && Leq(t, right) ensures |s| <= |t| {
      Total(t, right);
      Squeezed(left, right, t, |left|);
    }
  }
}
