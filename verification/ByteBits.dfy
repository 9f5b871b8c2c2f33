/** Bytes as numbers and as eight bits. */
module ByteBits {
  predicate Bit(x: bv8, m: bv8) {
    x & m != 0
  }

  predicate Odd(n: int) {
    n % 2 == 1
  }

  lemma BitsOf(b: int)
    requires 0 <= b < 256
    ensures Bit(b as bv8, 1) == Odd(b)
    ensures Bit(b as bv8, 2) == Odd(b / 2)
    ensures Bit(b as bv8, 4) == Odd(b / 4)
    ensures Bit(b as bv8, 8) == Odd(b / 8)
    ensures Bit(b as bv8, 16) == Odd(b / 16)
    ensures Bit(b as bv8, 32) == Odd(b / 32)
    ensures Bit(b as bv8, 64) == Odd(b / 64)
    ensures Bit(b as bv8, 128) == Odd(b / 128)
  {
  }

  predicate SameOdds(a: int, b: int) {
    && Odd(a) == Odd(b) && Odd(a / 2) == Odd(b / 2) && Odd(a / 4) == Odd(b / 4) && Odd(a / 8) == Odd(b / 8)
    && Odd(a / 16) == Odd(b / 16) && Odd(a / 32) == Odd(b / 32) && Odd(a / 64) == Odd(b / 64) && Odd(a / 128) == Odd(b / 128)
  }

  lemma SameBits(a: int, b: int)
    requires 0 <= a < 256 && 0 <= b < 256 && a as bv8 == b as bv8
    ensures SameOdds(a, b)
  {
    hide Bit;
    hide Odd;
    BitsOf(a);
    BitsOf(b);
  }

  lemma Halves(n: int)
    requires 0 <= n < 256
    ensures n / 128 / 2 == 0 && n / 64 / 2 == n / 128 && n / 32 / 2 == n / 64 && n / 16 / 2 == n / 32
    ensures n / 8 / 2 == n / 16 && n / 4 / 2 == n / 8 && n / 2 / 2 == n / 4
  {
  }

  lemma SameHalf(a: int, b: int)
    requires Odd(a) == Odd(b) && a / 2 == b / 2
    ensures a == b
  {
  }

  lemma SameNumber(a: int, b: int)
    requires 0 <= a < 256 && 0 <= b < 256 && SameOdds(a, b)
    ensures a == b
  {
    hide Odd;
    Halves(a);
    Halves(b);
    SameHalf(a / 128, b / 128);
    SameHalf(a / 64, b / 64);
    SameHalf(a / 32, b / 32);
    SameHalf(a / 16, b / 16);
    SameHalf(a / 8, b / 8);
    SameHalf(a / 4, b / 4);
    SameHalf(a / 2, b / 2);
    SameHalf(a, b);
  }

  /** Different bytes have different bits. */
  lemma BitsInjective(a: int, b: int)
    requires 0 <= a < 256 && 0 <= b < 256 && a as bv8 == b as bv8
    ensures a == b
  {
    hide SameOdds;
    SameBits(a, b);
    SameNumber(a, b);
  }
}
