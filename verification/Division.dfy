/** 64-bit division built on the x86 instruction that divides 64 bits by 32. */
module Division {
  const B32: int := 0x1_0000_0000
  const B64: int := 0x1_0000_0000_0000_0000
  const INT64_MIN: int := -0x8000_0000_0000_0000

  /** The instruction.  It raises a divide error unless the quotient exists and fits in 32 bits; that
      it never does so is what the precondition asks of every caller. */
  method Divl(n: nat, d: nat) returns (q: nat)
    requires n < B64 && 0 < d < B32 && n / d < B32
    ensures q == n / d
  {
    q := n / d;
  }

  // ------------------------------------------------------------------ leading zeros

  function Pow2(n: nat): (p: nat)
    ensures p >= 1
  {
    if n == 0 then 1 else 2 * Pow2(n - 1)
  }

  lemma {:induction false} Pow2Add(m: nat, n: nat)
    ensures Pow2(m + n) == Pow2(m) * Pow2(n)
  {
    if m > 0 { Pow2Add(m - 1, n); }
  }

  /** How often `x` can double before its top bit of 32 is set. */
  function LeadingZeros(x: nat): (n: nat)
    requires 0 < x < B32
    ensures B32 / 2 <= x * Pow2(n) < B32
    decreases B32 - x
  {
    if x >= B32 / 2 then 0
    else 1 + LeadingZeros(2 * x)
  }

  lemma {:induction false} LeadingZerosUnique(x: nat, n: nat)
    requires 0 < x < B32 && B32 / 2 <= x * Pow2(n) < B32
    ensures n == LeadingZeros(x)
    decreases n
  {
    if n > 0 {
      assert x * Pow2(n) == 2 * x * Pow2(n - 1);
      assert 2 * x <= 2 * x * Pow2(n - 1);
      LeadingZerosUnique(2 * x, n - 1);
    }
  }

  lemma Powers()
    ensures Pow2(1) == 2 && Pow2(2) == 4 && Pow2(4) == 16 && Pow2(8) == 256 && Pow2(16) == 65536 && Pow2(32) == B32
  {
    Pow2Add(16, 16);
  }

  lemma Scaled(x: nat, p: nat)
    requires x >= 1
    ensures x * p >= p
  {
  }

  lemma LeadingZerosBelow32(x: nat)
    requires 0 < x < B32
    ensures LeadingZeros(x) <= 31
  {
    var n := LeadingZeros(x);
    if n >= 32 {
      Powers();
      Pow2Add(32, n - 32);
      Scaled(x, Pow2(n));
    }
  }

  /** Binary search for the top set bit. */
  method Nlz(x0: nat) returns (n: nat)
    requires 0 < x0 < B32
    ensures n == LeadingZeros(x0)
  {
    Powers();
    var x;
    n, x := Narrow(0, x0, 16, 65536, 1, 0x1_0000, x0);
    n, x := Narrow(n, x, 8, 256, 0x1_0000, 0x100_0000, x0);
    n, x := Narrow(n, x, 4, 16, 0x100_0000, 0x1000_0000, x0);
    n, x := Narrow(n, x, 2, 4, 0x1000_0000, 0x4000_0000, x0);
    n, x := Narrow(n, x, 1, 2, 0x4000_0000, 0x8000_0000, x0);
    LeadingZerosUnique(x0, n);
  }

  /** `if (x < high) n += k, x <<= k`, on 32 bits: `x` is at least `low` before and at least `high` after. */
  method Narrow(n: nat, x: nat, k: nat, factor: nat, ghost low: nat, high: nat, ghost x0: nat) returns (n': nat, x': nat)
    requires x == x0 * Pow2(n) && factor == Pow2(k) && low * factor == high && high * factor == B32 && low <= x < B32
    ensures x' == x0 * Pow2(n') && high <= x' < B32
  {
    n', x' := n, x;
    if x < high {
      Shifted(x0, n, k);
      Stretched(low, x, high, factor);
      n', x' := n + k, x * factor % B32;
    }
  }

  lemma Shifted(x0: nat, n: nat, k: nat)
    ensures x0 * Pow2(n) * Pow2(k) == x0 * Pow2(n + k)
  {
    Pow2Add(n, k);
    Assoc(x0, Pow2(n), Pow2(k));
  }

  lemma Stretched(low: nat, x: nat, high: nat, factor: nat)
    requires low <= x < high && factor > 0
    ensures low * factor <= x * factor < high * factor
  {
    Mono(low, x, factor);
    Mono(x + 1, high, factor);
    Dist(x, 1, factor);
  }

  // ------------------------------------------------------------------ unsigned division

  lemma Mono(a: int, b: int, c: int)
    requires a <= b && c >= 0
    ensures a * c <= b * c
  {
  }

  lemma Assoc(a: int, b: int, c: int)
    ensures a * b * c == a * (b * c) && a * b == b * a
  {
  }

  lemma Dist(a: int, b: int, c: int)
    ensures (a + b) * c == a * c + b * c && (a - b) * c == a * c - b * c
  {
  }

  lemma Cancel(a: int, b: int, c: int)
    requires a * c < b * c && c > 0
    ensures a < b
  {
    if b <= a { Mono(b, a, c); }
  }

  lemma DivMod(n: nat, d: nat)
    requires d > 0
    ensures n == n / d * d + n % d && 0 <= n % d < d && n / d >= 0
  {
  }

  lemma QuotientIs(n: nat, d: nat, q: nat, r: nat)
    requires d > 0 && n == q * d + r && r < d
    ensures n / d == q && n % d == r
  {
    DivMod(n, d);
    var q' := n / d;
    Dist(q, 1, d);
    Dist(q', 1, d);
    Cancel(q, q' + 1, d);
    Cancel(q', q + 1, d);
  }

  lemma QuotientRange(a: nat, b: nat)
    requires b >= 1
    ensures a / b <= a && (b >= 2 ==> 2 * (a / b) <= a)
  {
    DivMod(a, b);
    Mono(1, b, a / b);
    if b >= 2 { Mono(2, b, a / b); }
    Assoc(a / b, b, 1);
  }

  /** Long division in base 2^32 by one digit. */
  lemma SmallDivisor(n: nat, d: nat, n1: nat, n0: nat, high: nat, carry: nat)
    requires n < B64 && 0 < d < B32 && n == B32 * n1 + n0 && n0 < B32 && n1 == high * d + carry && carry < d
    ensures var m := B32 * carry + n0;
            m < B64 && m / d < B32 && m / d + B32 * high == n / d < B64
  {
    var m := B32 * carry + n0;
    DivMod(m, d);
    LongDivision(n, d, n1, n0, high, carry, m / d, m % d);
    QuotientIs(n, d, m / d + B32 * high, m % d);
    QuotientRange(n, d);
  }

  lemma LongDivision(n: nat, d: nat, n1: nat, n0: nat, t: nat, u: nat, q: nat, r: nat)
    requires 0 < d && n == B32 * n1 + n0 && n0 < B32 && n1 == t * d + u && u < d
    requires B32 * u + n0 == q * d + r && r < d
    ensures n == (q + B32 * t) * d + r && q < B32
  {
    Assoc(B32, t, d);
    Dist(q, B32 * t, d);
    Assoc(B32, d, 1);
    Cancel(q, B32, d);
  }

  /** Dividing by `a` and then by `b` divides by the product. */
  lemma DivDiv(n: nat, a: nat, b: nat)
    requires a > 0 && b > 0
    ensures a * b > 0 && n / a / b == n / (a * b)
  {
    Scaled(a, b);
    var q, r := n / a, n % a;
    var q2, r2 := q / b, q % b;
    DivMod(n, a);
    DivMod(q, b);
    Dist(q2 * b, r2, a);
    Assoc(q2, b, a);
    Assoc(a, b, 1);
    assert r2 * a + r < a * b by { Mono(r2 + 1, b, a); Dist(r2, 1, a); }
    QuotientIs(n, a * b, q2, r2 * a + r);
  }

  /** Rounding the divisor down to its top 32 bits makes the quotient too big by at most one. */
  lemma Estimate(n: nat, d: nat, v: nat, p: nat, s: nat)
    requires n < B64 && p * s == B32 && p >= 2 && B32 / 2 <= v < B32
    requires v * p <= d < v * p + p
    ensures v * p > 0 && d > 0 && n / d <= n / (v * p) <= n / d + 1
  {
    Scaled(v, p);
    var low := v * p;
    var q, guess := n / d, n / low;
    DivMod(n, d);
    DivMod(n, low);
    assert q < guess + 1 by {
      Mono(low, d, q);
      Assoc(q, d, 1);
      Assoc(q, low, 1);
      Dist(guess, 1, low);
      Cancel(q, guess + 1, low);
    }
    NeverTwoOver(n, d, v, p, s, q);
    if guess >= q + 2 { Mono(q + 2, guess, low); }
  }

  lemma NeverTwoOver(n: nat, d: nat, v: nat, p: nat, s: nat, q: nat)
    requires n < B64 && p * s == B32 && p >= 2 && B32 / 2 <= v < B32
    requires v * p <= d < v * p + p && n < q * d + d
    ensures n < (q + 2) * (v * p)
  {
    Mono(B32 / 2, v, p);
    Assoc(v, p, s);
    OffByLessThanTwo(n, d, v * p, v, p, s, q);
  }

  lemma OffByLessThanTwo(n: nat, d: nat, low: nat, v: nat, p: nat, s: nat, q: nat)
    requires n < B64 && p * s == B32 && p >= 2 && low * s == v * B32 && v >= B32 / 2 && low >= B32 / 2 * p
    requires low <= d < low + p && n < q * d + d
    ensures n < (q + 2) * low
  {
    if (q + 2) * low <= n {
      ErrorIsLarge(n, low, d - low, q);
      QuotientIsSmall(n, low, s, v, q);
      ErrorBound(q, d - low, s, p);
      NotThree(p, s);
      ErrorIsSmall(low, (q + 1) * (d - low), p, s);
    }
  }

  lemma ErrorIsSmall(low: int, error: int, p: int, s: int)
    requires low >= B32 / 2 * p && error <= 2 * B32 - 2 * s - 2 * p + 2 && s >= 1
    requires (p == 2 && s == B32 / 2) || p >= 4
    ensures error <= low
  {
  }

  lemma NotThree(p: nat, s: nat)
    requires p * s == B32 && p >= 2
    ensures (p == 2 && s == B32 / 2) || p >= 4
  {
    if p == 3 { assert 3 * s == B32; }
  }

  /** To be off by two, the error times the quotient would have to exceed the divisor, ... */
  lemma ErrorIsLarge(n: nat, low: nat, e: nat, q: nat)
    requires n < q * (low + e) + (low + e) && (q + 2) * low <= n
    ensures low < (q + 1) * e
  {
    Dist(q, 2, low);
    Dist(low, e, q);
    Dist(q, 1, e);
  }

  /** ... but the quotient is small, because the divisor fills its top bits. */
  lemma QuotientIsSmall(n: nat, low: nat, s: nat, v: nat, q: nat)
    requires low * s == v * B32 && v >= B32 / 2 && (q + 2) * low <= n < B64 && s >= 1
    ensures q + 2 < 2 * s
  {
    Mono((q + 2) * low, n, s);
    Assoc(q + 2, low, s);
    Mono(B32 / 2 * B32, v * B32, q + 2);
    Assoc(q + 2, v * B32, 1);
    Mono(n + 1, B64, s);
    Dist(n, 1, s);
    HalfOf(q + 2, s);
  }

  lemma HalfOf(a: nat, s: nat)
    requires B32 / 2 * B32 * a < B64 * s
    ensures a < 2 * s
  {
  }

  lemma ErrorBound(q: nat, e: nat, s: nat, p: nat)
    requires q + 2 < 2 * s && e < p && p * s == B32
    ensures (q + 1) * e <= 2 * B32 - 2 * s - 2 * p + 2
  {
    Mono(q + 1, 2 * s - 2, e);
    Mono(e, p - 1, 2 * s - 2);
    Dist(p, 1, 2 * s - 2);
  }

  /** The divisor shifted to the top of 64 bits; its upper half is the divisor without its low bits. */
  lemma TopHalf(d: nat, s: nat, p: nat, d1: nat)
    requires B32 <= d < B64 && s >= 1 && p * s == B32 && d1 == d / B32
    requires B32 / 2 <= d1 * s < B32
    ensures var v := d * s % B64 / B32;
            B32 / 2 <= v < B32 && v * p <= d < v * p + p
  {
    FitsShifted(d, s, p, d1);
    var v := d * s / B32;
    assert v >= B32 / 2 by {
      Mono(d1 * B32, d, s);
      Assoc(d1, B32, s);
      Assoc(d1, s, B32);
    }
    assert v * B32 <= d * s < (v + 1) * B32;
    Assoc(v, p, s);
    Assoc(v + 1, p, s);
    Dist(v, 1, p);
    Cancel(d, (v + 1) * p, s);
    if v * p > d { Mono(d + 1, v * p, s); Dist(d, 1, s); }
  }

  /** Shifting by the leading zeros loses no bit. */
  lemma FitsShifted(d: nat, s: nat, p: nat, d1: nat)
    requires s >= 1 && p * s == B32 && d1 == d / B32 && d1 * s < B32
    ensures d * s < B64
  {
    Cancel(d1, p, s);
    Mono(d1 + 1, p, s);
    Mono(d + 1, (d1 + 1) * B32, s);
    Dist(d, 1, s);
    Assoc(d1 + 1, B32, s);
    Assoc(d1 + 1, s, B32);
  }

  /** The correction step picks the true quotient out of the two candidates. */
  lemma Corrected(n: nat, d: nat, guess: nat)
    requires 0 < d <= n < B64 && n / d <= guess <= n / d + 1
    ensures var less := guess - 1;
            0 <= less < B64 && 0 <= n - less * d < B64 && (if n - less * d < d then less else guess) == n / d
  {
    DivMod(n, d);
    QuotientIsPositive(n, d);
    QuotientRange(n, d);
    Choice(n, d, n / d, n % d, guess);
  }

  lemma Choice(n: nat, d: nat, t: nat, r: nat, guess: nat)
    requires n == t * d + r && r < d <= n < B64 && t >= 1 && t <= guess <= t + 1
    ensures var less := guess - 1;
            0 <= n - less * d < B64 && (if n - less * d < d then less else guess) == t
  {
    Dist(t, 1, d);
  }

  lemma QuotientIsPositive(n: nat, d: nat)
    requires 0 < d <= n
    ensures n / d >= 1
  {
    DivMod(n, d);
  }

  lemma LargeDivisor(n: nat, d: nat, shift: nat, rest: nat)
    requires B32 <= d <= n < B64 && rest >= 1 && shift >= 1 && rest * 2 * shift == B32
    requires B32 / 2 <= d / B32 * shift < B32
    ensures var v := d * shift % B64 / B32;
            && 0 < v < B32 && n / 2 / v < B32
            && n / d <= n / 2 / v / rest <= n / d + 1
  {
    TopHalf(d, shift, 2 * rest, d / B32);
    var v := d * shift % B64 / B32;
    Estimate(n, d, v, 2 * rest, shift);
    Halved(n, v, rest);
  }

  /** Shifting the result of the instruction finishes the division. */
  lemma Halved(n: nat, v: nat, half: nat)
    requires n < B64 && B32 / 2 <= v < B32 && half >= 1
    ensures v * (2 * half) > 0 && n / 2 / v < B32 && n / 2 / v / half == n / (v * (2 * half))
  {
    NoTrap(n / 2, v);
    Scaled(v, 2 * half);
    assert 2 * v * half == v * (2 * half) by { Assoc(2, v, half); Assoc(v, 2, half); }
    HalvedTwice(n, v, half);
  }

  lemma HalvedTwice(n: nat, v: nat, half: nat)
    requires v >= 1 && half >= 1 && 2 * v * half > 0
    ensures n / 2 / v / half == n / (2 * v * half)
  {
    DivDiv(n, 2, v);
    DivDiv(n, 2 * v, half);
  }

  lemma NoTrap(m: nat, v: nat)
    requires m < B64 / 2 && v >= B32 / 2
    ensures m / v < B32
  {
    DivMod(m, v);
    BigProduct(m / v, v);
  }

  lemma BigProduct(q: nat, v: nat)
    requires v >= B32 / 2
    ensures q >= B32 ==> q * v >= B64 / 2
  {
    if q >= B32 { Mono(B32, q, v); }
  }

  /** Unsigned division: exact for every dividend and nonzero divisor, and no divide error on the way. */
  method Udiv64(n: nat, d: nat) returns (q: nat)
    requires n < B64 && 0 < d < B64
    ensures q == n / d
  {
    if d / B32 == 0 {
      q := UdivSmall(n, d);
    } else if n < d {
      QuotientIs(n, d, 0, n);
      q := 0;
    } else {
      q := UdivLarge(n, d);
    }
  }

  /** A divisor of 32 bits: the upper digit first, and its remainder carried into the lower. */
  method UdivSmall(n: nat, d: nat) returns (q: nat)
    requires n < B64 && 0 < d < B32
    ensures q == n / d
  {
    var n1, n0 := n / B32, n % B32;
    DivMod(n1, d);
    var high, carry := n1 / d, n1 % d;
    SmallDivisor(n, d, n1, n0, high, carry);
    var low := Divl(B32 * carry + n0, d);
    q := (low + B32 * high) % B64;
  }

  /** A divisor of more than 32 bits: shift it to the top, divide by its upper half, correct the guess.
      A shift by `s` bits is written as a multiplication or division by `2^s`. */
  method UdivLarge(n: nat, d: nat) returns (q: nat)
    requires B32 <= d <= n < B64
    ensures q == n / d
  {
    var s := Nlz(d / B32);
    LeadingZerosBelow32(d / B32);
    var shift, rest := Pow2(s), Pow2(31 - s);
    assert rest * 2 * shift == B32 by { Powers(); Pow2Add(32 - s, s); }
    LargeDivisor(n, d, shift, rest);
    var q1 := Divl(n / 2, d * shift % B64 / B32);
    var guess := q1 / rest;
    q := Correct(n, d, guess);
  }

  method Correct(n: nat, d: nat, guess: nat) returns (q: nat)
    requires 0 < d <= n < B64 && n / d <= guess <= n / d + 1
    ensures q == n / d
  {
    Corrected(n, d, guess);
    var less := (guess - 1) % B64;
    q := if (n - less * d) % B64 < d then less else guess;
  }

  /** The remainder, which the kernel returns in 32 bits. */
  method Umod64(n: nat, d: nat) returns (r: nat)
    requires n < B64 && 0 < d < B64
    ensures r == n % d % B32
    ensures r == n % d <==> n % d < B32
  {
    var q := Udiv64(n, d);
    DivMod(n, d);
    SmallMod(n, d, q, n % d);
    r := (n - d * q) % B64 % B32;
  }

  lemma SmallMod(n: nat, d: nat, q: nat, r: nat)
    requires n == q * d + r && r < B64
    ensures (n - d * q) % B64 == r
  {
  }

  /** Those 32 bits are the whole remainder for every dividend exactly when the divisor is at most 2^32. */
  lemma UmodExact(d: nat)
    requires 0 < d < B64
    ensures (forall n: nat | n < B64 :: n % d < B32) <==> d <= B32
  {
    forall n: nat | n < B64 ensures n % d < d { DivMod(n, d); }
    if d > B32 {
      QuotientIs(B32, d, 0, B32);
      assert B32 % d == B32;
    }
  }

  // ------------------------------------------------------------------ signed division

  predicate IsInt64(x: int) { INT64_MIN <= x < -INT64_MIN }

  /** Two's complement: the signed value of the low 64, or 32, bits. */
  function Wrap64(x: int): int {
    var u := x % B64; if u < B64 / 2 then u else u - B64
  }

  function Wrap32(x: int): int {
    var u := x % B32; if u < B32 / 2 then u else u - B32
  }

  function Abs(x: int): nat { if x >= 0 then x else -x }

  /** `q` and `r` divide `n` by `d` toward zero: the remainder has the sign of the dividend. */
  predicate Truncates(n: int, d: int, q: int, r: int) {
    n == q * d + r && Abs(r) < Abs(d) && (r > 0 ==> n > 0) && (r < 0 ==> n < 0)
  }

  function Signed(negative: bool, x: int): int { if negative then -x else x }

  /** The quotient and remainder of magnitudes, with their signs. */
  function Quotient(n: int, d: int): int
    requires d != 0
  {
    Signed((n < 0) != (d < 0), Abs(n) / Abs(d))
  }

  function Remainder(n: int, d: int): int
    requires d != 0
  {
    Signed(n < 0, Abs(n) % Abs(d))
  }

  /** These are the only two numbers that divide toward zero. */
  lemma TruncatesUnique(n: int, d: int, q: int, r: int)
    requires d != 0
    ensures Truncates(n, d, q, r) <==> q == Quotient(n, d) && r == Remainder(n, d)
  {
    QuotientTruncates(n, d);
    if Truncates(n, d, q, r) { OnlyOne(n, d, q, r); }
  }

  lemma QuotientTruncates(n: int, d: int)
    requires d != 0
    ensures Truncates(n, d, Quotient(n, d), Remainder(n, d))
  {
    DivMod(Abs(n), Abs(d));
    Magnitudes(n, d, Abs(n) / Abs(d), Abs(n) % Abs(d));
  }

  lemma Magnitudes(n: int, d: int, uq: int, ur: int)
    requires d != 0 && Abs(n) == uq * Abs(d) + ur && 0 <= ur < Abs(d) && uq >= 0
    ensures Truncates(n, d, Signed((n < 0) != (d < 0), uq), Signed(n < 0, ur))
  {
    Signs(uq, d);
  }

  lemma OnlyOne(n: int, d: int, q: int, r: int)
    requires d != 0 && Truncates(n, d, q, r)
    ensures q == Quotient(n, d) && r == Remainder(n, d)
  {
    SameSign(n, d, q, r);
    QuotientIs(Abs(n), Abs(d), Abs(q), Abs(r));
  }

  lemma Signs(q: int, d: int)
    ensures (-q) * d == -(q * d) && q * (-d) == -(q * d) && (-q) * (-d) == q * d
  {
  }

  lemma SameSign(n: int, d: int, q: int, r: int)
    requires d != 0 && Truncates(n, d, q, r)
    ensures Abs(n) == Abs(q) * Abs(d) + Abs(r)
    ensures q != 0 ==> (q > 0 <==> (n < 0) == (d < 0))
  {
    if q > 0 { Mono(1, q, Abs(d)); } else if q < 0 { Mono(1, -q, Abs(d)); }
    Signs(q, d);
  }

  /** Division truncates toward zero, except that the one quotient that does not fit comes out as its
      negation. */
  method Sdiv64(n: int, d: int) returns (q: int)
    requires IsInt64(n) && IsInt64(d) && d != 0
    ensures q == Wrap64(Quotient(n, d)) && IsInt64(q)
    ensures q == Quotient(n, d) <==> !(n == INT64_MIN && d == -1)
  {
    var a := Udiv64(Abs(n), Abs(d));
    QuotientRange(Abs(n), Abs(d));
    if Abs(d) == 1 { QuotientIs(Abs(n), 1, Abs(n), 0); }
    WrapsOnce(a);
    q := if (n < 0) == (d < 0) then Wrap64(a) else Wrap64(-Wrap64(a));
  }

  lemma WrapsOnce(q: int)
    requires 0 <= q <= -INT64_MIN
    ensures Wrap64(-Wrap64(q)) == -q == Wrap64(-q)
    ensures Wrap64(q) == if q == -INT64_MIN then INT64_MIN else q
  {
  }

  /** The signed remainder, which the kernel returns in 32 bits; the quotient that overflows does no
      harm here. */
  method Smod64(n: int, d: int) returns (r: int)
    requires IsInt64(n) && IsInt64(d) && d != 0
    ensures r == Wrap32(Remainder(n, d))
    ensures r == Remainder(n, d) <==> -(B32 / 2) <= Remainder(n, d) < B32 / 2
  {
    var q := Sdiv64(n, d);
    RemainderLeft(n, d, q);
    var rest := Wrap64(n - Wrap64(d * q));
    WrapsWhole(rest);
    r := Wrap32(rest);
  }

  lemma RemainderLeft(n: int, d: int, q: int)
    requires IsInt64(n) && IsInt64(d) && d != 0 && q == Wrap64(Quotient(n, d))
    requires q == Quotient(n, d) <==> !(n == INT64_MIN && d == -1)
    ensures Wrap64(n - Wrap64(d * q)) == Remainder(n, d)
  {
    if n == INT64_MIN && d == -1 {
      QuotientIs(B64 / 2, 1, B64 / 2, 0);
    } else {
      QuotientTruncates(n, d);
      Subtracted(n, d, q, Remainder(n, d));
    }
  }

  lemma WrapsWhole(r: int)
    ensures Wrap32(r) == r <==> -(B32 / 2) <= r < B32 / 2
  {
  }

  lemma Subtracted(n: int, d: int, q: int, r: int)
    requires IsInt64(n) && IsInt64(d) && d != 0 && Truncates(n, d, q, r)
    ensures Wrap64(n - Wrap64(d * q)) == r
  {
    Assoc(q, d, 1);
    Between(n, r, Abs(d));
  }

  lemma Between(n: int, r: int, limit: int)
    requires IsInt64(n) && Abs(r) < limit <= -INT64_MIN && (r > 0 ==> n > 0) && (r < 0 ==> n < 0)
    ensures IsInt64(n - r) && Wrap64(n - r) == n - r && Wrap64(r) == r
  {
  }

  /** Those 32 bits are the whole remainder for every dividend exactly when the divisor's magnitude is
      at most 2^31. */
  lemma SmodExact(d: int)
    requires IsInt64(d) && d != 0
    ensures (forall n | IsInt64(n) :: -(B32 / 2) <= Remainder(n, d) < B32 / 2) <==> Abs(d) <= B32 / 2
  {
    forall n | IsInt64(n) ensures Abs(Remainder(n, d)) < Abs(d) { QuotientTruncates(n, d); }
    if Abs(d) > B32 / 2 {
      QuotientIs(B32 / 2, Abs(d), 0, B32 / 2);
      assert Remainder(B32 / 2, d) == B32 / 2;
    }
  }
}
