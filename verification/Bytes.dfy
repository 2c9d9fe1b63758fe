/** Byte strings, little-endian words and writes at an offset. */
module Bytes {
  type byte = n: int | 0 <= n < 256

  type bytes = seq<byte>

  const U32_MAX: nat := 0xFFFF_FFFF

  function LE32(n: nat): (b: bytes)
    requires n <= U32_MAX
    ensures |b| == 4
  {
    [n % 256, n / 256 % 256, n / 65536 % 256, n / 16777216]
  }

  function Word(b: bytes): nat
    requires |b| == 4
  {
    b[0] as int + 256 * b[1] as int + 65536 * b[2] as int + 16777216 * b[3] as int
  }

  lemma WordOf(n: nat)
    requires n <= U32_MAX
    ensures Word(LE32(n)) == n
  {
    assert n / 65536 == n / 256 / 256 && n / 16777216 == n / 65536 / 256;
  }

  /** The bytes `b` stand at offset `c`. */
  predicate At(m: bytes, c: nat, b: bytes) {
    c + |b| <= |m| && m[c..c + |b|] == b
  }

  /** Copies `b` over the bytes at offset `c`. */
  function Write(m: bytes, c: nat, b: bytes): (r: bytes)
    requires c + |b| <= |m|
    ensures |r| == |m|
  {
    m[..c] + b + m[c + |b|..]
  }

  lemma WordAt(m: bytes, c: nat, n: nat)
    requires n <= U32_MAX && At(m, c, LE32(n))
    ensures Word(m[c..c + 4]) == n
  {
    WordOf(n);
  }

  lemma AtSplit(m: bytes, c: nat, a: bytes, b: bytes)
    ensures At(m, c, a + b) <==> At(m, c, a) && At(m, c + |a|, b)
  {
    if At(m, c, a + b) {
      assert m[c..c + |a|] == m[c..c + |a + b|][..|a|];
      assert m[c + |a|..c + |a| + |b|] == m[c..c + |a + b|][|a|..];
    }
    if At(m, c, a) && At(m, c + |a|, b) {
      assert m[c..c + |a + b|] == m[c..c + |a|] + m[c + |a|..c + |a| + |b|];
    }
  }

  lemma AtEmpty(m: bytes, c: nat)
    requires c <= |m|
    ensures At(m, c, [])
  {
  }

  lemma WriteAt(m: bytes, c: nat, b: bytes)
    requires c + |b| <= |m|
    ensures At(Write(m, c, b), c, b)
  {
  }

  /** A write leaves alone what does not overlap it. */
  lemma WriteKeeps(m: bytes, c: nat, b: bytes, d: nat, x: bytes)
    requires c + |b| <= |m| && At(m, d, x) && (d + |x| <= c || c + |b| <= d)
    ensures At(Write(m, c, b), d, x)
  {
    var w := Write(m, c, b);
    forall i | 0 <= i < |x| ensures w[d..d + |x|][i] == x[i] {
      assert m[d..d + |x|][i] == x[i];
    }
  }

  lemma PrefixAt(m: bytes, n: nat, d: nat, x: bytes)
    requires n <= |m| && At(m, d, x) && d + |x| <= n
    ensures At(m[..n], d, x)
  {
    assert m[..n][d..d + |x|] == m[d..d + |x|];
  }

  lemma ExtendAt(m: bytes, y: bytes, d: nat, x: bytes)
    requires At(m, d, x)
    ensures At(m + y, d, x)
  {
    assert (m + y)[d..d + |x|] == m[d..d + |x|];
  }
}
