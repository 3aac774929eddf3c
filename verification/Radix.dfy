/** Positional arithmetic: a number `hi * base + lo` with `0 <= lo < base`. */
module Radix {

  lemma MulAtLeast(k: int, base: int)
    requires k >= 1 && base >= 0
    ensures k * base >= base
  {
  }

  /** Quotient and remainder are determined by the sum they make up, for negative numbers too. */
  lemma DivUnique(hi: int, lo: int, base: int)
    requires 0 <= lo < base
    ensures (hi * base + lo) / base == hi
    ensures (hi * base + lo) % base == lo
  {
    var n := hi * base + lo;
    var q, r := n / base, n % base;
    assert (q - hi) * base == lo - r;
    assert (hi - q) * base == r - lo;
    if q > hi {
      MulAtLeast(q - hi, base);
    } else if q < hi {
      MulAtLeast(hi - q, base);
    }
  }

  /** A two-digit number stays below `n * base` while its high digit stays below `n`. */
  lemma TwoDigitBound(hi: int, lo: int, base: int, n: int)
    requires 0 <= hi < n && 0 <= lo < base
    ensures 0 <= hi * base + lo < n * base
  {
    assert hi * base >= 0;
    MulAtLeast(n - hi, base);
    assert (n - hi) * base == n * base - hi * base;
  }

  /** The high digit of a number below `n * base` is below `n`. */
  lemma HighDigitBound(k: int, base: int, n: int)
    requires base > 0 && 0 <= k < n * base
    ensures 0 <= k / base < n
    ensures k == (k / base) * base + k % base
  {
    var q, r := k / base, k % base;
    assert k == q * base + r;
    assert (-q) * base == -(q * base);
    assert (q - n + 1) * base == q * base - n * base + base;
    if q < 0 {
      MulAtLeast(-q, base);
    } else if q >= n {
      MulAtLeast(q - n + 1, base);
    }
  }

  /** The order of two-digit numbers is lexicographic. */
  lemma TwoDigitOrder(hi1: int, lo1: int, hi2: int, lo2: int, base: int)
    requires 0 <= lo1 < base && 0 <= lo2 < base
    ensures hi1 * base + lo1 < hi2 * base + lo2 <==> hi1 < hi2 || (hi1 == hi2 && lo1 < lo2)
  {
    assert (hi2 - hi1) * base == hi2 * base - hi1 * base;
    assert (hi1 - hi2) * base == hi1 * base - hi2 * base;
    if hi1 < hi2 {
      MulAtLeast(hi2 - hi1, base);
    } else if hi2 < hi1 {
      MulAtLeast(hi1 - hi2, base);
    }
  }

  /** Splitting off the low part of the high digit leaves the low digit alone. */
  lemma ModOfMultiple(n: int, base: int, k: int)
    requires base > 0
    ensures (n + k * base) / base == n / base + k
    ensures (n + k * base) % base == n % base
  {
    assert n + k * base == (n / base + k) * base + n % base;
    DivUnique(n / base + k, n % base, base);
  }

  /** Adding before or after taking the remainder is the same. */
  lemma ModAdds(n: int, k: int, base: int)
    requires base > 0
    ensures (n + k) % base == (n % base + k) % base
  {
    assert n + k == (n % base + k) + (n / base) * base;
    ModOfMultiple(n % base + k, base, n / base);
  }

  /** Two numbers have the same remainder exactly if their difference is a multiple. */
  lemma SameRemainder(a: int, b: int, base: int)
    requires base > 0
    ensures a % base == b % base <==> (a - b) % base == 0
  {
    var d := a % base - b % base;
    assert a - b == d + (a / base - b / base) * base;
    ModOfMultiple(d, base, a / base - b / base);
    if d >= 0 {
      DivUnique(0, d, base);
    } else {
      DivUnique(-1, d + base, base);
    }
  }
}
