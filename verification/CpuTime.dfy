/** CPU time scaling: the loop that keeps a product inside 64 bits, when it is defined, and
    what it promises about the quotient. */
module CpuTime {
  import opened Bytes

  // ----- Powers of two and scaled bounds -----

  ghost function Pow2(n: nat): (r: nat)
    ensures r > 0
  {
    if n == 0 then 1 else 2 * Pow2(n - 1)
  }

  lemma {:induction false} Pow2Add(a: nat, b: nat)
    ensures Pow2(a + b) == Pow2(a) * Pow2(b)
    decreases a
  {
    if a != 0 {
      Pow2Add(a - 1, b);
    }
  }

  lemma {:induction false} Pow2Mono(a: nat, b: nat)
    requires a <= b
    ensures Pow2(a) <= Pow2(b)
    decreases b - a
  {
    if a < b {
      Pow2Mono(a, b - 1);
    }
  }

  lemma Pow2Values()
    ensures Pow2(31) == TWO31 && Pow2(32) == TWO32 && Pow2(63) == TWO63
  {
    assert Pow2(8) == 256;
    Pow2Add(8, 8);
    Pow2Add(16, 8);
    Pow2Add(24, 7);
    Pow2Add(16, 16);
    Pow2Add(32, 31);
  }

  /** `x` is at most `X / 2^e`; a negative `e` means growth. */
  ghost predicate Below(x: nat, e: int, X: nat) {
    if e >= 0 then x * Pow2(e) <= X else x <= X * Pow2(-e)
  }

  lemma BelowSelf(x: nat)
    ensures Below(x, 0, x)
  {
  }

  lemma HalveBelow(x: nat, e: int, X: nat)
    requires Below(x, e, X)
    ensures Below(x / 2, e + 1, X)
  {
    if e >= 0 {
      var p := Pow2(e);
      assert (x / 2) * Pow2(e + 1) == (2 * (x / 2)) * p;
      MulMono(p, 2 * (x / 2), x);
    } else if e < -1 {
      var p := Pow2(-e - 1);
      assert X * Pow2(-e) == 2 * (X * p);
    }
  }

  lemma DoubleBelow(x: nat, e: int, X: nat)
    requires Below(x, e, X)
    ensures Below(2 * x, e - 1, X)
  {
    if e >= 1 {
      assert (2 * x) * Pow2(e - 1) == x * Pow2(e);
    } else {
      assert X * Pow2(1 - e) == 2 * (X * Pow2(-e));
    }
  }

  lemma BelowExponent(x: nat, e: int, X: nat, p: nat, q: nat)
    requires Below(x, e, X) && X < Pow2(p) && x >= Pow2(q)
    ensures q + e < p
  {
    hide Pow2;
    if q + e >= p {
      if e >= 0 {
        Pow2Add(q, e);
        Pow2Mono(p, q + e);
        ScaleLower(x, Pow2(q), Pow2(e), X);
      } else {
        Pow2Add(p, -e);
        Pow2Mono(p - e, q);
        ScaleStrict(X, Pow2(p), Pow2(-e));
      }
    }
  }

  lemma ScaleLower(x: nat, q: nat, p: nat, X: nat)
    requires x * p <= X && x >= q
    ensures q * p <= X
  {
    MulMono(p, q, x);
  }

  lemma ScaleStrict(x: nat, y: nat, p: nat)
    requires x < y && p > 0
    ensures x * p < y * p
  {
    MulMono(p, x + 1, y);
    assert (x + 1) * p == x * p + p;
  }

  // ----- The scaling loop -----

  datatype Operands = Operands(stime: nat, rtime: nat, total: nat)

  /** A turn of the loop that drops precision, `r` being the bigger of the two. */
  predicate Drops(s: nat, r: nat, t: nat) {
    t >= TWO32 || (r >= TWO32 && s >= TWO31)
  }

  predicate Stops(s: nat, r: nat, t: nat) {
    t < TWO32 && r < TWO32
  }

  /** The operands the loop ends with. */
  function Balance(s: nat, r: nat, t: nat): (o: Operands)
    ensures o.stime <= o.rtime < TWO32 && o.total < TWO32
    decreases s + r + t
  {
    if s > r then
      if Drops(r, s, t) then Balance(r, s / 2, t / 2)
      else if Stops(r, s, t) then Operands(r, s, t)
      else Balance(2 * r, s / 2, t)
    else
      if Drops(s, r, t) then Balance(s, r / 2, t / 2)
      else if Stops(s, r, t) then Operands(s, r, t)
      else Balance(2 * s, r / 2, t)
  }

  lemma BalanceSwap(s: nat, r: nat, t: nat)
    requires s > r
    ensures Balance(s, r, t) == Balance(r, s, t)
  {
  }

  /** One turn, with the operands in order. */
  lemma BalanceStep(s: nat, r: nat, t: nat)
    requires s <= r
    ensures Balance(s, r, t) == if Drops(s, r, t) then Balance(s, r / 2, t / 2)
                                else if Stops(s, r, t) then Operands(s, r, t)
                                else Balance(2 * s, r / 2, t)
  {
  }

  /** The last division, by what is left of the total. */
  datatype Division = Value(scaled: nat) | ByZero

  /** `scale_stime`, with its 64-bit loop and the final 32-bit operands.  It ends for all
      words, and the shifted value never leaves 64 bits. */
  method ScaleStime(stime: nat, rtime: nat, total: nat) returns (d: Division)
    requires stime < TWO64 && rtime < TWO64 && total < TWO64
    ensures d.ByZero? <==> Balance(stime, rtime, total).total == 0
    ensures d.Value? ==> d.scaled == Scaled(stime, rtime, total)
  {
    hide Balance, Quotient;
    var s: nat, r: nat, t: nat := stime, rtime, total;
    while true
      invariant Balance(s, r, t) == Balance(stime, rtime, total)
      invariant s < TWO64 && r < TWO64 && t < TWO64
      decreases s + r + t
    {
      if s > r {
        BalanceSwap(s, r, t);
        s, r := r, s;
      }
      BalanceStep(s, r, t);
      if t < TWO32 {
        if r < TWO32 {
          break;
        }
        if s < TWO31 {
          assert 2 * s < TWO64;
          s := (2 * s) % TWO64;
          r := r / 2;
          continue;
        }
      }
      r, t := r / 2, t / 2;
    }
    assert Balance(stime, rtime, total) == Operands(s, r, t);
    assert s % TWO32 == s && r % TWO32 == r && t % TWO32 == t;
    d := if t % TWO32 == 0 then ByZero else Value(Quotient(s % TWO32, r % TWO32, t % TWO32));
  }

  /** A 32 by 32 bit product divided by a 32 bit number. */
  function Quotient(a: nat, b: nat, c: nat): nat
    requires c > 0
  {
    a * b / c
  }

  function Scaled(stime: nat, rtime: nat, total: nat): nat
    requires Balance(stime, rtime, total).total > 0
  {
    var o := Balance(stime, rtime, total);
    Quotient(o.stime, o.rtime, o.total)
  }

  // ----- The divisor never becomes zero -----

  /** `t` is `T / 2^k`, rounded down. */
  ghost predicate Shifted(t: nat, k: nat, T: nat) {
    t * Pow2(k) <= T < (t + 1) * Pow2(k)
  }

  lemma ShiftMore(t: nat, k: nat, T: nat)
    requires Shifted(t, k, T)
    ensures Shifted(t / 2, k + 1, T)
  {
    var p := Pow2(k);
    assert (t / 2) * Pow2(k + 1) == (2 * (t / 2)) * p;
    assert (t / 2 + 1) * Pow2(k + 1) == (2 * (t / 2) + 2) * p;
    MulMono(p, 2 * (t / 2), t);
    MulMono(p, t + 1, 2 * (t / 2) + 2);
  }

  /** Two operands that came from `A` and `B`, of which one started at most at `T` and the
      other below 2^63, with `k` precision drops between them. */
  ghost predicate Tracks(s: nat, r: nat, t: nat, m: int, n: int, k: nat, A: nat, B: nat, T: nat) {
    && Below(s, m, A) && Below(r, n, B) && m + n == k
    && Shifted(t, k, T) && t >= 1
    && ((A <= T && B < TWO63) || (B <= T && A < TWO63))
  }

  /** A precision drop never takes the last bit of the divisor. */
  lemma DropKeepsTotal(s: nat, r: nat, t: nat, m: int, n: int, k: nat, A: nat, B: nat, T: nat)
    requires Tracks(s, r, t, m, n, k, A, B, T) && s <= r && Drops(s, r, t)
    ensures t >= 2
  {
    Pow2Values();
    if t == 1 {
      assert T < Pow2(k + 1);
      if A <= T && B < TWO63 {
        BelowExponent(s, m, A, k + 1, 31);
        BelowExponent(r, n, B, 63, 32);
      } else {
        BelowExponent(s, m, A, 63, 31);
        BelowExponent(r, n, B, k + 1, 32);
      }
    }
  }

  lemma {:induction false} TotalSurvives(s: nat, r: nat, t: nat, m: int, n: int, k: nat, A: nat, B: nat, T: nat)
    requires Tracks(s, r, t, m, n, k, A, B, T)
    ensures Balance(s, r, t).total >= 1
    decreases s + r + t, s > r
  {
    hide Balance, Below, Shifted;
    if s > r {
      BalanceSwap(s, r, t);
      TotalSurvives(r, s, t, n, m, k, B, A, T);
    } else {
      BalanceStep(s, r, t);
      if Drops(s, r, t) {
        DropKeepsTotal(s, r, t, m, n, k, A, B, T);
        HalveBelow(r, n, B);
        ShiftMore(t, k, T);
        TotalSurvives(s, r / 2, t / 2, m, n + 1, k + 1, A, B, T);
      } else if !Stops(s, r, t) {
        DoubleBelow(s, m, A);
        HalveBelow(r, n, B);
        TotalSurvives(2 * s, r / 2, t, m - 1, n + 1, k, A, B, T);
      }
    }
  }

  /** For a system time within the total and a run time below 2^63, the divisor is never
      shifted away. */
  lemma NeverZero(stime: nat, rtime: nat, total: nat)
    requires stime <= total && 0 < total && rtime < TWO63
    ensures Balance(stime, rtime, total).total >= 1
  {
    BelowSelf(stime);
    BelowSelf(rtime);
    assert Shifted(total, 0, total);
    TotalSurvives(stime, rtime, total, 0, 0, 0, stime, rtime, total);
  }

  lemma {:induction false} ShiftedAway(r: nat, j: nat)
    requires j <= 31 && r >= TWO32 * Pow2(j)
    ensures Balance(TWO31, r, Pow2(j)).total == 0
    decreases j
  {
    hide Balance;
    Pow2Values();
    Pow2Mono(j, 31);
    assert r >= TWO32 by { MulMono(TWO32, 1, Pow2(j)); }
    BalanceStep(TWO31, r, Pow2(j));
    if j == 0 {
      ZeroStays(TWO31, r / 2);
    } else {
      ShiftedAway(r / 2, j - 1);
    }
  }

  lemma {:induction false} ZeroStays(s: nat, r: nat)
    ensures Balance(s, r, 0).total == 0
    decreases s + r, s > r
  {
    hide Balance;
    if s > r {
      BalanceSwap(s, r, 0);
      ZeroStays(r, s);
    } else {
      BalanceStep(s, r, 0);
      if Drops(s, r, 0) {
        ZeroStays(s, r / 2);
      } else if !Stops(s, r, 0) {
        ZeroStays(2 * s, r / 2);
      }
    }
  }

  ghost predicate DividesForAll(rtime: nat) {
    forall stime: nat, total: nat :: stime <= total && 0 < total ==> Balance(stime, rtime, total).total >= 1
  }

  /** The bound on the run time is exact: below 2^63 no admissible input divides by zero, and
      from 2^63 on some input does. */
  lemma WellDefinedIff(rtime: nat)
    ensures DividesForAll(rtime) <==> rtime < TWO63
  {
    if rtime < TWO63 {
      forall stime: nat, total: nat | stime <= total && 0 < total
        ensures Balance(stime, rtime, total).total >= 1
      {
        NeverZero(stime, rtime, total);
      }
    } else {
      Pow2Values();
      ShiftedAway(rtime, 31);
      assert Balance(TWO31, rtime, TWO31).total == 0;
    }
  }

  // ----- Accuracy -----

  function Product(a: nat, b: nat): nat {
    a * b
  }

  /** How many bits a number has. */
  function Bits(n: nat): nat {
    if n == 0 then 0 else 1 + Bits(n / 2)
  }

  lemma {:induction false} BitsOf(n: nat, k: nat)
    ensures Bits(n) <= k <==> n < Pow2(k)
    decreases k
  {
    if n > 0 && k > 0 {
      BitsOf(n / 2, k - 1);
    }
  }

  lemma BitsMove(n: nat)
    ensures n > 0 ==> Bits(2 * n) == Bits(n) + 1 && Bits(n / 2) == Bits(n) - 1
  {
    assert (2 * n) / 2 == n;
  }

  lemma WordBits(n: nat)
    ensures n < TWO31 <==> Bits(n) <= 31
    ensures n < TWO32 <==> Bits(n) <= 32
    ensures n < TWO63 <==> Bits(n) <= 63
  {
    hide Bits, Pow2;
    Pow2Values();
    BitsOf(n, 31);
    BitsOf(n, 32);
    BitsOf(n, 63);
  }

  /** No bit of the total has to go: it has 32 bits, and the operands 64 together. */
  predicate Fits(s: nat, r: nat, t: nat) {
    t < TWO32 && (s == 0 || r == 0 || Bits(s) + Bits(r) <= 64)
  }

  /** One turn, seen through the bit lengths. */
  lemma FitsStep(s: nat, r: nat, t: nat)
    requires s <= r
    ensures Stops(s, r, t) ==> Fits(s, r, t)
    ensures Drops(s, r, t) ==> !Fits(s, r, t)
    ensures !Drops(s, r, t) && !Stops(s, r, t) ==> (Fits(2 * s, r / 2, t) <==> Fits(s, r, t))
  {
    hide Bits;
    WordBits(s);
    WordBits(r);
    BitsMove(s);
    BitsMove(r);
  }

  lemma {:induction false} TotalFalls(s: nat, r: nat, t: nat)
    ensures Balance(s, r, t).total <= t
    decreases s + r + t
  {
    hide Balance;
    var a, b := if s > r then r else s, if s > r then s else r;
    if s > r {
      BalanceSwap(s, r, t);
    }
    BalanceStep(a, b, t);
    if Drops(a, b, t) {
      TotalFalls(a, b / 2, t / 2);
    } else if !Stops(a, b, t) {
      TotalFalls(2 * a, b / 2, t);
    }
  }

  /** The exact condition for keeping every bit of the total. */
  lemma {:induction false} TotalKeptIff(s: nat, r: nat, t: nat)
    requires t > 0
    ensures Balance(s, r, t).total == t <==> Fits(s, r, t)
    decreases s + r + t
  {
    hide Balance, Fits;
    var a, b := if s > r then r else s, if s > r then s else r;
    if s > r {
      BalanceSwap(s, r, t);
      FitsSwap(s, r, t);
    }
    BalanceStep(a, b, t);
    FitsStep(a, b, t);
    if Drops(a, b, t) {
      TotalFalls(a, b / 2, t / 2);
    } else if !Stops(a, b, t) {
      TotalKeptIff(2 * a, b / 2, t);
    }
  }

  lemma FitsSwap(s: nat, r: nat, t: nat)
    ensures Fits(s, r, t) <==> Fits(r, s, t)
  {
  }

  lemma HalvingLoss(s: nat, r: nat)
    ensures Product(2 * s, r / 2) <= Product(s, r) <= Product(2 * s, r / 2) + s
    ensures Product(r / 2, 2 * s) == Product(2 * s, r / 2)
  {
    assert r == 2 * (r / 2) + r % 2;
    assert s * r == s * (2 * (r / 2)) + s * (r % 2);
    assert (2 * s) * (r / 2) == s * (2 * (r / 2));
    MulMono(s, r % 2, 1);
  }

  /** While nothing is dropped, the product only loses what halving an odd operand loses,
      less than the operand that grows, so less than 2^32 in all. */
  lemma {:induction false} BalanceAccurate(s: nat, r: nat, t: nat, product: nat)
    requires s <= r && Fits(s, r, t) && Product(s, r) <= product <= Product(s, r) + s
    ensures var o := Balance(s, r, t); Product(o.stime, o.rtime) <= product < Product(o.stime, o.rtime) + TWO32
    decreases s + r
  {
    hide Balance, Product, Fits;
    FitsStep(s, r, t);
    BalanceStep(s, r, t);
    if !Stops(s, r, t) {
      HalvingLoss(s, r);
      if 2 * s <= r / 2 {
        BalanceAccurate(2 * s, r / 2, t, product);
      } else {
        BalanceSwap(2 * s, r / 2, t);
        BalanceStep(r / 2, 2 * s, t);
      }
    }
  }

  lemma CancelLess(t: nat, a: int, b: int)
    requires t * a < t * b
    ensures a < b
  {
    if a >= b {
      MulMono(t, b, a);
    }
  }

  lemma DivMono(a: nat, b: nat, t: nat)
    requires t > 0 && a <= b
    ensures a / t <= b / t
  {
    assert t * (b / t + 1) == t * (b / t) + t;
    CancelLess(t, a / t, b / t + 1);
  }

  lemma DivGap(a: nat, d: nat, t: nat)
    requires t > 0
    ensures (a + d) / t <= a / t + d / t + 1
  {
    var q := a / t + d / t + 2;
    assert t * q == t * (a / t) + t * (d / t) + 2 * t;
    CancelLess(t, (a + d) / t, q);
  }

  /** Accuracy: exactly when the total has 32 bits and the operands 64 together, no bit of the
      total is dropped.  Then the result is never above the true quotient nor above the run
      time, and it is off by at most 2^32 / total + 1. */
  lemma ScaledAccuracy(stime: nat, rtime: nat, total: nat)
    requires stime <= total && 0 < total
    ensures Balance(stime, rtime, total).total == total <==> Fits(stime, rtime, total)
    ensures Fits(stime, rtime, total) ==>
              && Scaled(stime, rtime, total) <= stime * rtime / total <= rtime
              && stime * rtime / total - Scaled(stime, rtime, total) <= TWO32 / total + 1
  {
    TotalKeptIff(stime, rtime, total);
    if Fits(stime, rtime, total) {
      AccurateOperands(stime, rtime, total);
      hide Balance, Fits;
      var o := Balance(stime, rtime, total);
      QuotientError(Product(o.stime, o.rtime), Product(stime, rtime), total);
      QuotientBound(stime, rtime, total);
    }
  }

  /** With 32-bit run time and total the result is exact, whatever the product. */
  lemma ScaledExact(stime: nat, rtime: nat, total: nat)
    requires stime <= total < TWO32 && 0 < total && rtime < TWO32
    ensures Fits(stime, rtime, total)
    ensures Balance(stime, rtime, total).total == total
    ensures Scaled(stime, rtime, total) == stime * rtime / total
  {
    hide Bits;
    WordBits(stime);
    WordBits(rtime);
    AccurateOperands(stime, rtime, total);
    hide Balance;
  }

  lemma QuotientError(kept: nat, product: nat, total: nat)
    requires total > 0 && kept <= product < kept + TWO32
    ensures kept / total <= product / total <= kept / total + TWO32 / total + 1
  {
    DivMono(kept, product, total);
    DivGap(kept, product - kept, total);
    DivMono(product - kept, TWO32, total);
  }

  lemma QuotientBound(stime: nat, rtime: nat, total: nat)
    requires total > 0 && stime <= total
    ensures Product(stime, rtime) / total <= rtime
  {
    MulMono(rtime, stime, total);
    DivMono(Product(stime, rtime), total * rtime, total);
    EuclidUnique(total * rtime, total, rtime, 0);
  }

  lemma AccurateOperands(stime: nat, rtime: nat, total: nat)
    requires stime <= total && 0 < total && Fits(stime, rtime, total)
    ensures var o := Balance(stime, rtime, total);
            && o.total == total
            && Product(o.stime, o.rtime) <= Product(stime, rtime) < Product(o.stime, o.rtime) + TWO32
            && (rtime < TWO32 ==> Product(o.stime, o.rtime) == Product(stime, rtime))
  {
    assert Product(rtime, stime) == Product(stime, rtime);
    assert total < TWO32;
    hide Balance, Product, Fits;
    TotalKeptIff(stime, rtime, total);
    FitsSwap(stime, rtime, total);
    if stime > rtime {
      BalanceSwap(stime, rtime, total);
      BalanceStep(rtime, stime, total);
      BalanceAccurate(rtime, stime, total, Product(stime, rtime));
    } else {
      BalanceStep(stime, rtime, total);
      BalanceAccurate(stime, rtime, total, Product(stime, rtime));
    }
  }

  // ----- How many bits are dropped -----

  /** What the total has over 32 bits, or the operands over 64 together, whichever is more. */
  function DropCount(s: nat, r: nat, t: nat): nat {
    var byTotal := Bits(t) - 32;
    var byOperands := if s == 0 || r == 0 then 0 else Bits(s) + Bits(r) - 64;
    if byTotal >= byOperands && byTotal >= 0 then byTotal else if byOperands >= 0 then byOperands else 0
  }

  lemma DropStep(s: nat, r: nat, t: nat)
    requires s <= r
    ensures DropCount(s, r, t) == DropCount(r, s, t)
    ensures Stops(s, r, t) ==> DropCount(s, r, t) == 0
    ensures Drops(s, r, t) ==> DropCount(s, r / 2, t / 2) == DropCount(s, r, t) - 1
    ensures !Drops(s, r, t) && !Stops(s, r, t) ==> DropCount(2 * s, r / 2, t) == DropCount(s, r, t)
  {
    hide Bits;
    WordBits(s);
    WordBits(r);
    WordBits(t);
    BitsMove(s);
    BitsMove(r);
    BitsMove(t);
    NoBits();
  }

  lemma NoBits()
    ensures Bits(0) == 0 && Bits(1) == 1
  {
    assert Bits(1) == 1 + Bits(0);
  }

  lemma ShiftOuter(x: nat, k: nat, t: nat)
    requires Shifted(x, k, t / 2)
    ensures Shifted(x, k + 1, t)
  {
    var p := Pow2(k);
    assert x * Pow2(k + 1) == 2 * (x * p) && (x + 1) * Pow2(k + 1) == 2 * ((x + 1) * p);
  }

  lemma ProductOuter(kept: nat, k: nat, s: nat, r: nat)
    requires kept * Pow2(k) <= Product(s, r / 2)
    ensures kept * Pow2(k + 1) <= Product(s, r)
  {
    HalvingLoss(s, r);
    assert kept * Pow2(k + 1) == 2 * (kept * Pow2(k));
    assert Product(2 * s, r / 2) == 2 * Product(s, r / 2);
  }

  /** For all inputs: exactly that many bits of the total go, and the product of the operands
      never gains by what replaces it. */
  lemma {:induction false} BalanceDrops(s: nat, r: nat, t: nat)
    ensures var o, k := Balance(s, r, t), DropCount(s, r, t);
            Shifted(o.total, k, t) && Product(o.stime, o.rtime) * Pow2(k) <= Product(s, r)
    decreases s + r + t, s > r
  {
    hide Balance, DropCount, Product, Shifted;
    if s > r {
      BalanceSwap(s, r, t);
      DropStep(r, s, t);
      BalanceDrops(r, s, t);
      ProductSwaps(s, r);
    } else {
      BalanceStep(s, r, t);
      DropStep(s, r, t);
      if Drops(s, r, t) {
        BalanceDrops(s, r / 2, t / 2);
        var o, k := Balance(s, r, t), DropCount(s, r / 2, t / 2);
        ShiftOuter(o.total, k, t);
        ProductOuter(Product(o.stime, o.rtime), k, s, r);
      } else if Stops(s, r, t) {
        NotShifted(t);
      } else {
        BalanceDrops(2 * s, r / 2, t);
        HalvingLoss(s, r);
      }
    }
  }

  lemma ProductSwaps(s: nat, r: nat)
    ensures Product(s, r) == Product(r, s)
  {
  }

  lemma NotShifted(t: nat)
    ensures Shifted(t, 0, t) && Pow2(0) == 1
  {
  }

  /** So the result is the quotient by what is left of the total of a product that, shifted back,
      is never above the true one. */
  lemma ScaledByDrops(stime: nat, rtime: nat, total: nat)
    requires Balance(stime, rtime, total).total > 0
    ensures var o, k := Balance(stime, rtime, total), DropCount(stime, rtime, total);
            && o.total * Pow2(k) <= total < (o.total + 1) * Pow2(k)
            && o.stime * o.rtime * Pow2(k) <= stime * rtime
            && Scaled(stime, rtime, total) * o.total <= o.stime * o.rtime < (Scaled(stime, rtime, total) + 1) * o.total
  {
    BalanceDrops(stime, rtime, total);
    hide Balance, DropCount, Pow2;
    var o := Balance(stime, rtime, total);
    QuotientBetween(o.stime * o.rtime, o.total);
  }

  /** Outside that domain the result can exceed the run time: here the total has 33 bits. */
  lemma ScaledCanExceedRuntime()
    ensures var s, r, t := 0x1_ffff_ffff, 0x2_0000_0000, 0x1_ffff_ffff;
            s <= t && Balance(s, r, t).total > 0 && Scaled(s, r, t) > r
  {
    hide Balance;
    BalanceStep(0x1_ffff_ffff, 0x2_0000_0000, 0x1_ffff_ffff);
    BalanceSwap(0x1_ffff_ffff, 0x1_0000_0000, 0xffff_ffff);
    BalanceStep(0x1_0000_0000, 0x1_ffff_ffff, 0xffff_ffff);
    BalanceSwap(0x1_0000_0000, 0xffff_ffff, 0x7fff_ffff);
    BalanceStep(0xffff_ffff, 0x1_0000_0000, 0x7fff_ffff);
    BalanceSwap(0xffff_ffff, 0x8000_0000, 0x3fff_ffff);
    BalanceStep(0x8000_0000, 0xffff_ffff, 0x3fff_ffff);
    assert Balance(0x1_ffff_ffff, 0x2_0000_0000, 0x1_ffff_ffff) == Operands(0x8000_0000, 0xffff_ffff, 0x3fff_ffff);
  }
}
