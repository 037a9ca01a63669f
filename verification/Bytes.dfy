/** Bytes, machine words and their little-endian layout in memory. */
module Bytes {

  newtype byte = x: int | 0 <= x < 256

  const TWO16: int := 0x1_0000
  const TWO31: int := 0x8000_0000
  const TWO32: int := 0x1_0000_0000
  const TWO63: int := 0x8000_0000_0000_0000
  const TWO64: int := 0x1_0000_0000_0000_0000

  function Min(a: int, b: int): (r: int)
    ensures r <= a && r <= b && (r == a || r == b)
  {
    if a <= b then a else b
  }

  lemma SubSlice<T>(m: seq<T>, at: nat, n: nat, i: nat, j: nat)
    requires at + n <= |m| && i <= j <= n
    ensures m[at..at + n][i..j] == m[at + i..at + j]
  {
    var w := m[at..at + n];
    forall k | 0 <= k < j - i
      ensures w[i..j][k] == m[at + i..at + j][k]
    {
      assert w[i..j][k] == w[i + k] == m[at + (i + k)];
    }
  }

  lemma SliceSplit<T>(m: seq<T>, i: nat, j: nat, k: nat)
    requires i <= j <= k <= |m|
    ensures m[i..k] == m[i..j] + m[j..k]
  {
  }

  ghost function Pow256(w: nat): (r: nat)
    ensures r > 0
  {
    if w == 0 then 1 else 256 * Pow256(w - 1)
  }

  /** The `w` low bytes of `v`, least significant first. */
  function LittleEndian(v: nat, w: nat): (s: seq<byte>)
    ensures |s| == w
    decreases w
  {
    if w == 0 then [] else [(v % 256) as byte] + LittleEndian(v / 256, w - 1)
  }

  /** The number a little-endian byte string stands for. */
  function Value(s: seq<byte>): (v: nat) {
    if s == [] then 0 else s[0] as nat + 256 * Value(s[1..])
  }

  lemma DivModStep(v: nat, p: nat)
    requires p > 0
    ensures v % (256 * p) == v % 256 + 256 * ((v / 256) % p)
  {
    var q := v / 256;
    assert q == p * (q / p) + q % p;
    var r := v % 256 + 256 * (q % p);
    assert v == (256 * p) * (q / p) + r by {
      assert (256 * p) * (q / p) == 256 * (p * (q / p));
    }
    assert 0 <= r < 256 * p;
    EuclidUnique(v, 256 * p, q / p, r);
  }

  lemma EuclidUnique(v: nat, d: nat, q: nat, r: nat)
    requires d > 0 && v == d * q + r && r < d
    ensures v % d == r && v / d == q
  {
    if v / d > q {
      MulMono(d, q + 1, v / d);
    } else if v / d < q {
      MulMono(d, v / d + 1, q);
    }
  }

  lemma MulMono(d: nat, a: int, b: int)
    requires a <= b
    ensures d * a <= d * b
  {
    assert d * (b - a) >= 0;
    assert d * (b - a) == d * b - d * a;
  }

  lemma QuotientBetween(a: nat, t: nat)
    requires t > 0
    ensures a / t * t <= a < (a / t + 1) * t
  {
    assert a == t * (a / t) + a % t;
    assert (a / t + 1) * t == a / t * t + t;
  }

  /** Reading back a stored word gives the word, truncated to its width. */
  lemma {:induction false} ValueOfLittleEndian(v: nat, w: nat)
    ensures Value(LittleEndian(v, w)) == v % Pow256(w)
    decreases w
  {
    if w != 0 {
      ValueOfLittleEndian(v / 256, w - 1);
      DivModStep(v, Pow256(w - 1));
      assert LittleEndian(v, w)[1..] == LittleEndian(v / 256, w - 1);
    }
  }

  lemma Pow256Values()
    ensures Pow256(2) == TWO16 && Pow256(4) == TWO32 && Pow256(8) == TWO64
  {
    assert Pow256(1) == 256;
    assert Pow256(3) == 0x100_0000;
    assert Pow256(4) == TWO32;
    assert Pow256(6) == 256 * Pow256(5);
  }

  /** Words that fit are read back unchanged. */
  lemma WordRoundTrip(v: nat)
    ensures v < TWO16 ==> Value(LittleEndian(v, 2)) == v
    ensures v < TWO32 ==> Value(LittleEndian(v, 4)) == v
    ensures v < TWO64 ==> Value(LittleEndian(v, 8)) == v
  {
    Pow256Values();
    hide LittleEndian, Value, Pow256;
    ValueOfLittleEndian(v, 2);
    ValueOfLittleEndian(v, 4);
    ValueOfLittleEndian(v, 8);
  }

  /** A word is told by its value. */
  lemma {:induction false} ValueTells(a: seq<byte>, b: seq<byte>)
    requires |a| == |b| && Value(a) == Value(b)
    ensures a == b
    decreases |a|
  {
    if a != [] {
      ValueTells(a[1..], b[1..]);
      assert a == [a[0]] + a[1..] && b == [b[0]] + b[1..];
    }
  }
}
