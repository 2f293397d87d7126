/** Quotients and remainders by numbers that are not fixed, as page-table fields and ring slots need them. */
module Division {

  lemma DivOf(a: int, d: int, q: int, r: int)
    requires d > 0 && a == q * d + r && 0 <= r < d
    ensures a / d == q
  {
    var x := a / d;
    assert x < q ==> (x + 1) * d <= q * d;
    assert x > q ==> x * d >= (q + 1) * d;
  }

  lemma ModOf(a: int, d: int, q: int, r: int)
    requires d > 0 && a == q * d + r && 0 <= r < d
    ensures a % d == r
  {
    DivOf(a, d, q, r);
  }

  /** A field below a multiple of its range. */
  lemma Shifted(k: int, f: int, d: int, m: int)
    requires d > 0 && m > 0
    ensures (k * m * d + f) / d % m == f / d % m
  {
    assert (k * m + f / d) * d == k * m * d + f / d * d;
    DivOf(k * m * d + f, d, k * m + f / d, f % d);
    assert (k + f / d / m) * m == k * m + f / d / m * m;
    ModOf(k * m + f / d, m, k + f / d / m, f / d % m);
  }

  /** A counter that wraps at a multiple of the ring's size finds the same slot. */
  lemma SameSlot(n: int, wrap: int, size: int)
    requires wrap > 0 && size > 0 && wrap % size == 0
    ensures n % wrap % size == n % size
  {
    var q, r, k := n / wrap, n % wrap, wrap / size;
    assert q * wrap == q * k * size by {
      assert wrap == k * size;
    }
    assert (q * k + r / size) * size == q * k * size + r / size * size;
    ModOf(n, size, q * k + r / size, r % size);
  }

  /** Counts less than the ring's size apart have different slots. */
  lemma SlotsApart(a: int, b: int, size: int)
    requires 0 < a - b < size
    ensures a % size != b % size
  {
    var q := b / size;
    if b % size + (a - b) < size {
      ModOf(a, size, q, b % size + (a - b));
    } else {
      assert (q + 1) * size == q * size + size;
      ModOf(a, size, q + 1, b % size + (a - b) - size);
    }
  }
}
