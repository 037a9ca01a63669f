/** How the ring is mapped for the reader: each page once, then each page again. */
module RingMapping {
  import opened Bytes
  import opened RingProtocol

  datatype Mapping =
    | Refused               // -EIO
    | Info                  // the page with head, tail and the counters
    | Data(pages: seq<nat>) // for each page of the mapping, the page of the ring behind it

  /** The ring byte behind byte `a` of the mapping. */
  function Translate(g: Geometry, pages: seq<nat>, a: nat): nat
    requires g.pageSize > 0 && a / g.pageSize < |pages|
  {
    pages[a / g.pageSize] * g.pageSize + a % g.pageSize
  }

  predicate Accepted(g: Geometry) {
    g.pageSize > 0 && g.ringSize >= 2 * g.pageSize && g.ringSize / g.pageSize * g.pageSize == g.ringSize
  }

  /** Pages 0 to n - 1, and then the same again. */
  predicate Twice(pages: seq<nat>, n: nat) {
    |pages| == 2 * n && forall i :: 0 <= i < 2 * n ==> pages[i] == if i < n then i else i - n
  }

  /** The whole decision, and the two page loops.  `remapFails(i)` is the kernel's answer
      for page `i` of the mapping. */
  method MapRing(g: Geometry, length: nat, writable: bool, remapFails: nat -> bool) returns (m: Mapping)
    requires g.pageSize > 0
    ensures m.Data? ==> Accepted(g) && length == 2 * g.ringSize && !writable
    ensures m.Data? ==> Twice(m.pages, g.ringSize / g.pageSize)
    ensures m.Data? <==>
            Accepted(g) && length > g.pageSize && length == 2 * g.ringSize && !writable
            && forall i :: 0 <= i < 2 * (g.ringSize / g.pageSize) ==> !remapFails(i)
    ensures m.Info? <==> Accepted(g) && length <= g.pageSize && !remapFails(0)
  {
    if g.ringSize < 2 * g.pageSize || g.ringSize / g.pageSize * g.pageSize != g.ringSize {
      return Refused;
    }
    if length <= g.pageSize {
      return if remapFails(0) then Refused else Info;
    }
    if length != 2 * g.ringSize || writable {
      return Refused;
    }
    var n := g.ringSize / g.pageSize;
    var pages: seq<nat> := [];
    var ptr, mlength := 0, g.ringSize;
    while mlength > 0
      invariant 0 <= |pages| <= n
      invariant ptr == |pages| * g.pageSize && mlength == (n - |pages|) * g.pageSize
      invariant forall i :: 0 <= i < |pages| ==> pages[i] == i && !remapFails(i)
      decreases mlength
    {
      PageOf(g, |pages|);
      Remaining(g, n - |pages|);
      if remapFails(|pages|) {
        return Refused;
      }
      pages := pages + [ptr / g.pageSize];
      ptr, mlength := ptr + g.pageSize, mlength - g.pageSize;
    }
    Remaining(g, n - |pages|);
    ptr, mlength := 0, g.ringSize;
    while mlength > 0
      invariant n <= |pages| <= 2 * n
      invariant ptr == (|pages| - n) * g.pageSize && mlength == (2 * n - |pages|) * g.pageSize
      invariant forall i :: 0 <= i < |pages| ==> pages[i] == if i < n then i else i - n
      invariant forall i :: 0 <= i < |pages| ==> !remapFails(i)
      decreases mlength
    {
      PageOf(g, |pages| - n);
      Remaining(g, 2 * n - |pages|);
      if remapFails(|pages|) {
        return Refused;
      }
      pages := pages + [ptr / g.pageSize];
      ptr, mlength := ptr + g.pageSize, mlength - g.pageSize;
    }
    Remaining(g, 2 * n - |pages|);
    m := Data(pages);
  }

  lemma PageOf(g: Geometry, i: nat)
    requires g.pageSize > 0
    ensures (i * g.pageSize) / g.pageSize == i && (i + 1) * g.pageSize == i * g.pageSize + g.pageSize
  {
    EuclidUnique(i * g.pageSize, g.pageSize, i, 0);
  }

  lemma Remaining(g: Geometry, k: nat)
    requires g.pageSize > 0
    ensures k * g.pageSize > 0 <==> k > 0
    ensures k > 0 ==> k * g.pageSize >= g.pageSize && (k - 1) * g.pageSize == k * g.pageSize - g.pageSize
  {
    if k > 0 {
      MulMono(g.pageSize, 1, k);
    }
  }

  lemma PageBounds(p: nat, n: nat, a: nat)
    requires p > 0
    ensures a < n * p <==> a / p < n
  {
    var q := a / p;
    if q < n {
      MulMono(p, q + 1, n);
      assert a == p * q + a % p;
      assert p * (q + 1) == p * q + p;
    } else {
      MulMono(p, n, q);
    }
  }

  lemma TranslateWraps(g: Geometry, pages: seq<nat>, n: nat, a: nat)
    requires g.pageSize > 0 && g.ringSize == n * g.pageSize && Twice(pages, n) && a < 2 * g.ringSize
    ensures a / g.pageSize < |pages|
    ensures Translate(g, pages, a) == if a < g.ringSize then a else a - g.ringSize
  {
    var p, q := g.pageSize, a / g.pageSize;
    PageBounds(p, n, a);
    PageBounds(p, 2 * n, a);
    assert a == q * p + a % p;
    assert (q - n) * p == q * p - n * p;
  }

  /** Reading the mapping is reading the mirrored ring: byte `a` of the mapping is byte `a`
      of the ring laid out twice. */
  lemma MappingIsMirror(g: Geometry, pages: seq<nat>, buffer: seq<byte>, a: nat)
    requires Accepted(g) && |buffer| == g.Allocated() && a < 2 * g.ringSize
    requires Twice(pages, g.ringSize / g.pageSize)
    ensures a / g.pageSize < |pages| && Translate(g, pages, a) < g.ringSize
    ensures Mirror(g, buffer)[a] == buffer[Translate(g, pages, a)]
  {
    hide Twice, Translate;
    TranslateWraps(g, pages, g.ringSize / g.pageSize, a);
  }
}
