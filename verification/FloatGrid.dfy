/** The integers and the doubles around them: which integers a double gives back (crates/nova-core/src/value.rs). */
module FloatGrid {
  import opened Values

  const I64_MAX := 0x7FFF_FFFF_FFFF_FFFF
  const I64_SIZE := 0x8000_0000_0000_0000  // 2^63, the magnitude of the smallest integer

  /** `m` is a double: a multiple of the distance between the doubles around it. */
  predicate OnGrid(m: nat) {
    m % Spacing(m, 1) == 0
  }

  // ---- arithmetic ----

  lemma Quotient(m: nat, p: nat)
    requires p > 0
    ensures m == (m / p) * p + m % p && m % p < p
  {
  }

  lemma Times(a: nat, b: nat, p: nat)
    requires a <= b
    ensures a * p <= b * p
  {
  }

  lemma QuotientAtLeast(m: nat, p: nat, k: nat)
    requires p > 0 && k * p <= m
    ensures k <= m / p
  {
    Quotient(m, p);
    if m / p < k { Times(m / p + 1, k, p); }
  }

  lemma QuotientBelow(m: nat, p: nat, k: nat)
    requires p > 0 && m < k * p
    ensures m / p < k
  {
    Quotient(m, p);
    if k <= m / p { Times(k, m / p, p); }
  }

  lemma Multiple(q: nat, p: nat)
    requires p > 0
    ensures (q * p) % p == 0
  {
    QuotientAtLeast(q * p, p, q);
    Quotient(q * p, p);
    Times(q, q * p / p, p);
  }

  // ---- spacing ----

  /** The doubles around `m` have `EXACT_INT / 2` to `EXACT_INT` times their spacing. */
  lemma {:induction false} SpacingBounds(m: nat, half: nat)
    requires half > 0
    ensures var p := Spacing(m, half);
            && half <= p && m < p * EXACT_INT
            && (p == half || (2 * half <= p && p % 2 == 0 && p * EXACT_INT <= 2 * m))
    decreases m - half * EXACT_INT
  {
    if m >= half * EXACT_INT {
      SpacingBounds(m, 2 * half);
    }
  }

  /** Two numbers between the same powers of two have the same spacing. */
  lemma {:induction false} SameSpacing(m: nat, n: nat, half: nat)
    requires half > 0
    requires var p := Spacing(m, half); n < p * EXACT_INT && (p == half || p * EXACT_INT <= 2 * n)
    ensures Spacing(n, half) == Spacing(m, half)
    decreases m - half * EXACT_INT
  {
    if m >= half * EXACT_INT {
      SpacingBounds(m, 2 * half);
      SameSpacing(m, n, 2 * half);
    }
  }

  /** At the next power of two the spacing doubles. */
  lemma {:induction false} NextSpacing(m: nat, half: nat)
    requires half > 0
    ensures Spacing(Spacing(m, half) * EXACT_INT, half) == 2 * Spacing(m, half)
    decreases m - half * EXACT_INT
  {
    if m >= half * EXACT_INT {
      SpacingBounds(m, 2 * half);
      NextSpacing(m, 2 * half);
    }
  }

  lemma {:induction false} SpacingGrows(m: nat, n: nat, half: nat)
    requires half > 0 && m <= n
    ensures Spacing(m, half) <= Spacing(n, half)
    decreases m - half * EXACT_INT
  {
    if m >= half * EXACT_INT {
      SpacingGrows(m, n, 2 * half);
    } else {
      SpacingBounds(n, half);
    }
  }

  lemma LargestSpacing()
    ensures Spacing(I64_MAX, 1) == 1024
  {
    assert Spacing(I64_MAX, 1) == Spacing(I64_MAX, 2) == Spacing(I64_MAX, 4) == Spacing(I64_MAX, 8);
    assert Spacing(I64_MAX, 8) == Spacing(I64_MAX, 16) == Spacing(I64_MAX, 32) == Spacing(I64_MAX, 64);
    assert Spacing(I64_MAX, 64) == Spacing(I64_MAX, 128) == Spacing(I64_MAX, 256) == Spacing(I64_MAX, 512);
  }

  // ---- rounding ----

  /** Rounding goes to one of the two multiples around, and leaves multiples alone. */
  lemma RoundedTo(m: nat, p: nat)
    requires p > 0
    ensures var (q, r) := (m / p, RoundHalfEven(m, p));
            && (r == q * p || r == (q + 1) * p) && (r == m <==> m % p == 0) && r % p == 0
  {
    Quotient(m, p);
    Multiple(m / p, p);
    Multiple(m / p + 1, p);
  }

  /** What rounding an integer beyond 2^53 to a double gives: a double, in the same binade or just at its end. */
  lemma RoundedDouble(m: nat)
    requires EXACT_INT < m <= I64_SIZE
    ensures var (p, r) := (Spacing(m, 1), RoundHalfEven(m, Spacing(m, 1)));
            && p >= 2 && p % 2 == 0 && p * EXACT_INT <= 2 * r && r <= p * EXACT_INT
            && EXACT_INT <= r <= I64_SIZE && OnGrid(r) && (r == m <==> OnGrid(m))
  {
    var p := Spacing(m, 1);
    var r := RoundHalfEven(m, p);
    SpacingBounds(m, 1);
    QuotientAtLeast(m, p, EXACT_INT / 2);
    QuotientBelow(m, p, EXACT_INT);
    RoundedTo(m, p);
    Times(EXACT_INT / 2, m / p, p);
    Times(m / p + 1, EXACT_INT, p);
    RoundedOnGrid(m, r);
    if m < I64_SIZE {
      SpacingGrows(m, I64_MAX, 1);
      LargestSpacing();
    } else {
      SmallestOnGrid();
    }
  }

  lemma RoundedOnGrid(m: nat, r: nat)
    requires EXACT_INT < m && r % Spacing(m, 1) == 0
    requires Spacing(m, 1) * EXACT_INT <= 2 * r && r <= Spacing(m, 1) * EXACT_INT
    ensures OnGrid(r)
  {
    var p := Spacing(m, 1);
    if r < p * EXACT_INT {
      SameSpacing(m, r, 1);
    } else {
      NextSpacing(m, 1);
      Multiple(EXACT_INT / 2, 2 * p);
    }
  }

  lemma SmallestOnGrid()
    ensures OnGrid(I64_SIZE)
  {
    LargestSpacing();
    NextSpacing(I64_MAX, 1);
  }
}
