/** Instants are nanoseconds from the Unix epoch, the precision of Go's time.Time. */
module Times {
  type Instant = int

  const MILLISECOND := 1_000_000
  const SECOND := 1_000_000_000
  const MINUTE := 60_000_000_000
  const HOUR := 3_600_000_000_000
  const DAY := 86_400_000_000_000

  /** Go's zero time, the first instant of the year 1, in this scale. */
  const ZERO_TIME: Instant := -62_135_596_800_000_000_000

  /** The greatest multiple of `unit` that is not after `t`. */
  function FloorTo(t: Instant, unit: int): (f: Instant)
    requires unit > 0
    ensures f <= t < f + unit
    ensures f % unit == 0
  {
    FloorIsMultiple(t, unit);
    t - t % unit
  }

  lemma FloorIsMultiple(t: Instant, unit: int)
    requires unit > 0
    ensures (t - t % unit) % unit == 0
  {
    var q := t / unit;
    assert t - t % unit == q * unit;
    MultipleHasNoRemainder(q, unit);
  }

  lemma MultipleHasNoRemainder(q: int, unit: int)
    requires unit > 0
    ensures (q * unit) % unit == 0
  {
    var r, m := (q * unit) / unit, (q * unit) % unit;
    assert (q - r) * unit == m;
    SmallMultiple(q - r, unit);
  }

  /** The only multiple of a unit strictly within one unit of zero is zero. */
  lemma SmallMultiple(k: int, unit: int)
    requires unit > 0 && -unit < k * unit < unit
    ensures k == 0
  {
    MultipleGrows(k, unit);
  }

  lemma MultipleGrows(k: int, unit: int)
    requires unit > 0
    ensures k >= 1 ==> k * unit >= unit
    ensures k <= -1 ==> k * unit <= -unit
  {
    assert k >= 1 ==> (k - 1) * unit >= 0;
    assert k <= -1 ==> (k + 1) * unit <= 0;
  }

  /** Two multiples of a unit that lie less than a unit apart are the same. */
  lemma CloseMultiplesAreEqual(a: Instant, b: Instant, unit: int)
    requires unit > 0 && a % unit == 0 && b % unit == 0
    requires a - unit < b < a + unit
    ensures a == b
  {
    var p, q := a / unit, b / unit;
    assert a - b == (p - q) * unit;
    SmallMultiple(p - q, unit);
  }

  /** Whatever is a multiple of the coarse unit is one of the fine unit. */
  lemma MultipleOfCoarse(a: Instant, fine: int, ratio: int)
    requires fine > 0 && ratio > 0
    requires a % (fine * ratio) == 0
    ensures a % fine == 0
  {
    var q := a / (fine * ratio);
    assert a == q * (fine * ratio) == (q * ratio) * fine;
    MultipleHasNoRemainder(q * ratio, fine);
  }

  /** Flooring is monotone. */
  lemma FloorMonotone(a: Instant, b: Instant, unit: int)
    requires unit > 0 && a <= b
    ensures FloorTo(a, unit) <= FloorTo(b, unit)
  {
    var fa, fb := FloorTo(a, unit), FloorTo(b, unit);
    if fa > fb {
      CloseMultiplesAreEqual(fa, fb, unit);
    }
  }

  /** Flooring to a fine unit first does not change a floor to a coarse one. */
  lemma FloorOfFloor(t: Instant, fine: int, ratio: int)
    requires fine > 0 && ratio > 0
    ensures fine * ratio > 0
    ensures FloorTo(FloorTo(t, fine), fine * ratio) == FloorTo(t, fine * ratio)
  {
    var coarse := fine * ratio;
    var f, c := FloorTo(t, fine), FloorTo(t, coarse);
    MultipleOfCoarse(c, fine, ratio);
    FloorMonotone(c, t, fine);
    CloseMultiplesAreEqual(c, FloorTo(c, fine), fine);
    // Now c <= f <= t < c + coarse, so both floors are c.
    CloseMultiplesAreEqual(FloorTo(f, coarse), c, coarse);
  }
}
