// strconv.ParseFloat on an integer literal: 53 significant bits, ties to even.

module Float64 {

  const EXACT: int := 0x20_0000_0000_0000 // 2^53: integers up to here survive

  const HALF: int := 0x10_0000_0000_0000

  /** Rounds down below one half, up above it, and to an even multiple at one half. */
  function Rounded(q: nat, r: nat, unit: nat): nat
  {
    if 2 * r < unit || (2 * r == unit && q % 2 == 0) then q * unit else (q + 1) * unit
  }

  function Nearest(n: nat, unit: nat): nat
    requires unit > 0
  {
    Rounded(n / unit, n % unit, unit)
  }

  /** Rounds to a multiple of the first power-of-two multiple of `unit` that leaves 53 bits. */
  function RoundAt(n: nat, unit: nat): nat
    requires unit > 0
    decreases n - unit
  {
    if n >= EXACT * unit then RoundAt(n, 2 * unit) else Nearest(n, unit)
  }

  function ToFloat64(n: int): int
  {
    if n >= 0 then RoundAt(n, 1) else 0 - RoundAt(-n, 1)
  }

  lemma QuotientMonotone(a: nat, b: nat, unit: nat)
    requires unit > 0 && a <= b
    ensures a / unit <= b / unit
  {
    var p, q := a / unit, b / unit;
    assert a == p * unit + a % unit && b == q * unit + b % unit;
    if p > q {
      ProductMonotone(q + 1, p, unit);
    }
  }

  lemma ProductMonotone(p: int, q: int, unit: nat)
    requires p <= q
    ensures p * unit <= q * unit
  {}

  lemma RoundedMonotone(q: nat, r: nat, s: nat, unit: nat)
    requires r <= s
    ensures Rounded(q, r, unit) <= Rounded(q, s, unit)
  {
    ProductMonotone(q, q + 1, unit);
  }

  lemma RoundedBelow(p: nat, r: nat, q: nat, s: nat, unit: nat)
    requires p < q
    ensures Rounded(p, r, unit) <= Rounded(q, s, unit)
  {
    ProductMonotone(p, p + 1, unit);
    ProductMonotone(p + 1, q, unit);
    ProductMonotone(q, q + 1, unit);
  }

  lemma RemainderMonotone(a: nat, b: nat, unit: nat)
    requires unit > 0 && a <= b && a / unit == b / unit
    ensures a % unit <= b % unit
  {
    var q := a / unit;
    assert a == q * unit + a % unit && b == q * unit + b % unit;
  }

  lemma NearestMonotone(a: nat, b: nat, unit: nat)
    requires unit > 0 && a <= b
    ensures Nearest(a, unit) <= Nearest(b, unit)
  {
    QuotientMonotone(a, b, unit);
    if a / unit == b / unit {
      RemainderMonotone(a, b, unit);
      RoundedMonotone(a / unit, a % unit, b % unit, unit);
    } else {
      RoundedBelow(a / unit, a % unit, b / unit, b % unit, unit);
    }
  }

  /** Below a multiple of the unit, rounding stays below it; above it, above. */
  lemma NearestAgainst(n: nat, c: nat, unit: nat)
    requires unit > 0
    ensures n <= c * unit ==> Nearest(n, unit) <= c * unit
    ensures n >= c * unit ==> Nearest(n, unit) >= c * unit
  {
    assert Nearest(c * unit, unit) == c * unit by { MultipleIsExact(c, unit); }
    if n <= c * unit {
      NearestMonotone(n, c * unit, unit);
    }
    if n >= c * unit {
      NearestMonotone(c * unit, n, unit);
    }
  }

  lemma MultipleIsExact(c: nat, unit: nat)
    requires unit > 0
    ensures Nearest(c * unit, unit) == c * unit
  {
    var n := c * unit;
    var q, r := n / unit, n % unit;
    assert n == q * unit + r;
    assert (c - q) * unit == r;
    if c > q {
      ProductMonotone(1, c - q, unit);
    } else if c < q {
      ProductMonotone(c - q, -1, unit);
    }
  }

  lemma {:induction false} RoundAtLeast(n: nat, unit: nat)
    requires unit > 0 && n >= HALF * unit
    ensures RoundAt(n, unit) >= HALF * unit
    decreases n - unit
  {
    if n >= EXACT * unit {
      RoundAtLeast(n, 2 * unit);
    } else {
      NearestAgainst(n, HALF, unit);
    }
  }

  lemma {:induction false} RoundAtMonotone(a: nat, b: nat, unit: nat)
    requires unit > 0 && a <= b
    ensures RoundAt(a, unit) <= RoundAt(b, unit)
    decreases b - unit
  {
    if a >= EXACT * unit {
      RoundAtMonotone(a, b, 2 * unit);
    } else if b >= EXACT * unit {
      NearestAgainst(a, EXACT, unit);
      RoundAtLeast(b, 2 * unit);
    } else {
      NearestMonotone(a, b, unit);
    }
  }

  /** Rounding never swaps two integers; it can only make them equal. */
  lemma Float64Monotone(a: int, b: int)
    requires a <= b
    ensures ToFloat64(a) <= ToFloat64(b)
  {
    if a >= 0 {
      RoundAtMonotone(a, b, 1);
    } else if b < 0 {
      RoundAtMonotone(-b, -a, 1);
    }
  }

  lemma ExactFloat64(n: int)
    requires -EXACT <= n <= EXACT
    ensures ToFloat64(n) == n
  {
    var m := if n >= 0 then n else -n;
    if m < EXACT {
      MultipleIsExact(m, 1);
    } else {
      MultipleIsExact(HALF, 2);
    }
  }

  // ----- that this is IEEE rounding

  function Pow2(k: nat): (p: nat)
    ensures p > 0
  {
    if k == 0 then 1 else 2 * Pow2(k - 1)
  }

  lemma {:induction false} Pow2Sum(a: nat, b: nat)
    ensures Pow2(a + b) == Pow2(a) * Pow2(b)
    decreases a
  {
    if a > 0 {
      calc {
        Pow2(a + b);
        2 * Pow2(a - 1 + b);
        { Pow2Sum(a - 1, b); }
        2 * (Pow2(a - 1) * Pow2(b));
        { Regroup(2, Pow2(a - 1), Pow2(b)); }
        2 * Pow2(a - 1) * Pow2(b);
        Pow2(a) * Pow2(b);
      }
    }
  }

  lemma Regroup(x: nat, y: nat, z: nat)
    ensures x * (y * z) == x * y * z
  {}

  function Distance(a: int, b: int): nat { if a <= b then b - a else a - b }

  lemma NoCloser(n: int, low: int, r: nat, unit: nat, near: int, other: int)
    requires n == low + r && r < unit && (other <= low || other >= low + unit)
    requires (near == low && 2 * r <= unit) || (near == low + unit && 2 * r >= unit)
    ensures Distance(near, n) <= Distance(other, n)
  {}

  lemma NearestCases(n: nat, unit: nat)
    requires unit > 0
    ensures n == n / unit * unit + n % unit
    ensures || (Nearest(n, unit) == n / unit * unit && 2 * (n % unit) <= unit)
            || (Nearest(n, unit) == n / unit * unit + unit && 2 * (n % unit) >= unit)
  {}

  /** A multiple of the unit is never closer than the chosen one. */
  lemma NearestIsNearest(n: nat, c: nat, unit: nat)
    requires unit > 0
    ensures Distance(Nearest(n, unit), n) <= Distance(c * unit, n)
  {
    NearestCases(n, unit);
    var q, other := n / unit, c * unit;
    if c <= q {
      ProductMonotone(c, q, unit);
    } else {
      ProductMonotone(q + 1, c, unit);
      assert (q + 1) * unit == q * unit + unit;
    }
    NoCloser(n, q * unit, n % unit, unit, Nearest(n, unit), other);
  }

  lemma MultipleOfSmaller(q: nat, k: nat, j: nat) returns (c: nat)
    requires j <= k
    ensures q * Pow2(k) == c * Pow2(j)
  {
    Pow2Sum(k - j, j);
    c := q * Pow2(k - j);
    Regroup(q, Pow2(k - j), Pow2(j));
  }

  lemma {:induction false} Pow2Monotone(a: nat, b: nat)
    requires a <= b
    ensures Pow2(a) <= Pow2(b)
    decreases b
  {
    if a < b {
      Pow2Monotone(a, b - 1);
    }
  }

  lemma FloatAtMost(q: nat, k: nat, j: nat)
    requires q <= EXACT && k < j
    ensures q * Pow2(k) <= HALF * Pow2(j)
  {
    Pow2Monotone(k, j - 1);
    ProductMonotone(q, EXACT, Pow2(k));
  }

  lemma {:induction false} RoundAtNearest(n: nat, j: nat, q: nat, k: nat)
    requires q <= EXACT && (j > 0 ==> n >= HALF * Pow2(j))
    ensures Distance(RoundAt(n, Pow2(j)), n) <= Distance(q * Pow2(k), n)
    decreases n - Pow2(j)
  {
    if n >= EXACT * Pow2(j) {
      RoundAtNearest(n, j + 1, q, k);
    } else if j <= k {
      var c := MultipleOfSmaller(q, k, j);
      NearestIsNearest(n, c, Pow2(j));
    } else {
      FloatAtMost(q, k, j);
      NearestIsNearest(n, HALF, Pow2(j));
    }
  }

  /** No number of 53 significant bits is closer to `n` than its rounding. */
  lemma RoundingIsNearest(n: nat, q: nat, k: nat)
    requires q <= EXACT
    ensures Distance(ToFloat64(n), n) <= Distance(q * Pow2(k), n)
  {
    RoundAtNearest(n, 0, q, k);
  }

  lemma {:induction false} RoundAtRepresentable(n: nat, j: nat) returns (q: nat, k: nat)
    ensures q <= EXACT && RoundAt(n, Pow2(j)) == q * Pow2(k)
    decreases n - Pow2(j)
  {
    if n >= EXACT * Pow2(j) {
      q, k := RoundAtRepresentable(n, j + 1);
    } else {
      var u := Pow2(j);
      q, k := if Nearest(n, u) == n / u * u then n / u else n / u + 1, j;
      assert n / u < EXACT by { QuotientBelow(n, EXACT, u); }
    }
  }

  lemma QuotientBelow(n: nat, c: nat, unit: nat)
    requires unit > 0 && n < c * unit
    ensures n / unit < c
  {
    if n / unit >= c {
      ProductMonotone(c, n / unit, unit);
    }
  }

  /** The rounding has 53 significant bits. */
  lemma RoundingIsRepresentable(n: nat) returns (q: nat, k: nat)
    ensures q <= EXACT && ToFloat64(n) == q * Pow2(k)
  {
    q, k := RoundAtRepresentable(n, 0);
  }
}
