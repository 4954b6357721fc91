/**
  What becomes of a whole number that is decoded into a double and written out again, as
  Go's encoding/json does for every number of a document it was given no type for: it is
  rounded to 53 bits, and the double is written with the fewest digits that read back as it.
 */
module Doubles {
  const LIMIT := 9_007_199_254_740_992 // two to the 53rd

  /** The spacing of doubles around a whole number, never less than one. */
  function Spacing(n: nat): (u: nat)
    ensures u >= 1 && n < LIMIT * u
    ensures u == 1 || (u >= 2 && LIMIT / 2 * u <= n)
  {
    if n < LIMIT then 1 else 2 * Spacing(n / 2)
  }

  /** The double nearest a whole number, ties to the even one. */
  function Nearest(n: nat): nat {
    var u := Spacing(n);
    var q, r := n / u, n % u;
    if 2 * r < u || (2 * r == u && q % 2 == 0) then q * u else (q + 1) * u
  }

  function Ten(k: nat): (t: nat)
    ensures t >= 1 && (k >= 1 ==> t % 10 == 0)
  {
    if k == 0 then 1 else 10 * Ten(k - 1)
  }

  /** The multiple of ten to the k nearest a number: the number with its last k digits rounded off. */
  function Rounded(d: nat, k: nat): nat {
    RoundedQuotient(d, Ten(k)) * Ten(k)
  }

  function RoundedQuotient(d: nat, t: nat): nat
    requires t >= 1
  {
    if 2 * (d % t) < t then d / t else d / t + 1
  }

  function Digits(d: nat): nat {
    if d < 10 then 1 else 1 + Digits(d / 10)
  }

  /** The rounding with the fewest digits that still reads back as the double. */
  function Shorten(d: nat, k: nat): nat {
    if k == 0 || Nearest(Rounded(d, k)) == d then Rounded(d, k) else Shorten(d, k - 1)
  }

  function Written(m: nat): nat {
    var d := Nearest(m);
    Shorten(d, Digits(d))
  }

  function Rewritten(n: int): int {
    if n < 0 then -(Written(-n) as int) else Written(n)
  }

  lemma NothingRoundedOff(d: nat)
    ensures Rounded(d, 0) == d
  {
    assert d % 1 == 0 && d / 1 == d;
  }

  lemma RoundedIsMultiple(d: nat, k: nat)
    requires k >= 1
    ensures Rounded(d, k) % 10 == 0
  {
    hide Ten, RoundedQuotient;
    MultipleOfTen(RoundedQuotient(d, Ten(k)), Ten(k));
  }

  lemma MultipleOfTen(q: nat, t: nat)
    requires t % 10 == 0
    ensures (q * t) % 10 == 0
  {
    var m := t / 10;
    assert t == 10 * m;
    assert q * t == 10 * (q * m);
  }

  lemma SmallIsItsOwnNearest(n: nat)
    requires n < LIMIT
    ensures Nearest(n) == n
  {
  }

  /** A larger number's nearest double is not small, but for the first one past the limit. */
  lemma LargeStaysLarge(n: nat)
    requires n >= LIMIT && Nearest(n) <= LIMIT
    ensures n == LIMIT || n == LIMIT + 1
  {
    hide Spacing;
    var u := Spacing(n);
    var q, r := n / u, n % u;
    assert n == q * u + r;
    assert q >= LIMIT / 2 by {
      if q < LIMIT / 2 {
        Below(q + 1, LIMIT / 2, u);
      }
    }
    Below(LIMIT / 2, q, u);
    assert LIMIT / 2 * u <= q * u <= Nearest(n) <= LIMIT by { Below(q, q + 1, u); }
  }

  lemma Below(a: nat, b: nat, u: nat)
    requires a <= b
    ensures a * u <= b * u
  {
  }

  lemma {:induction false} SmallShortensToItself(d: nat, k: nat)
    requires d <= LIMIT
    ensures Shorten(d, k) == d
    decreases k
  {
    hide Nearest, Rounded, Spacing;
    if k == 0 {
      NothingRoundedOff(d);
    } else {
      RoundedIsMultiple(d, k);
      var c := Rounded(d, k);
      if Nearest(c) == d {
        if c < LIMIT {
          SmallIsItsOwnNearest(c);
        } else {
          LargeStaysLarge(c);
        }
      } else {
        SmallShortensToItself(d, k - 1);
      }
    }
  }

  lemma TheLimitIsADouble()
    ensures Nearest(LIMIT) == LIMIT
  {
    assert Spacing(LIMIT / 2) == 1;
    assert Spacing(LIMIT) == 2;
  }

  /** Every whole number up to two to the 53rd, either way, is written as it was read. */
  lemma SmallNumbersSurvive(n: int)
    requires -LIMIT <= n <= LIMIT
    ensures Rewritten(n) == n
  {
    hide Nearest, Shorten, Digits;
    var m: nat := if n < 0 then -n else n;
    if m < LIMIT {
      SmallIsItsOwnNearest(m);
    } else {
      TheLimitIsADouble();
    }
    SmallShortensToItself(Nearest(m), Digits(Nearest(m)));
  }

  /** The next one is not. */
  lemma TheNextIsLost()
    ensures Rewritten(LIMIT + 1) == LIMIT
  {
    hide Shorten, Digits;
    assert (LIMIT + 1) / 2 == LIMIT / 2;
    assert Spacing(LIMIT / 2) == 1;
    assert Spacing(LIMIT + 1) == 2;
    SmallShortensToItself(LIMIT, Digits(LIMIT));
  }

  // Exactly a double, two to the 60th; and the shortest digits that read back as it.
  const EXACT := 1_152_921_504_606_846_976
  const SHORT := 1_152_921_504_606_847_000

  lemma SpacingThere(n: nat)
    requires EXACT <= n < 2 * EXACT
    ensures Spacing(n) == 256
  {
    hide Nearest;
    var n1 := n / 2;
    var n2 := n1 / 2;
    var n3 := n2 / 2;
    var n4 := n3 / 2;
    var n5 := n4 / 2;
    var n6 := n5 / 2;
    var n7 := n6 / 2;
    var n8 := n7 / 2;
    assert LIMIT / 2 <= n8 < LIMIT;
    assert Spacing(n8) == 1;
    assert Spacing(n7) == 2;
    assert Spacing(n6) == 4;
    assert Spacing(n5) == 8;
    assert Spacing(n4) == 16;
    assert Spacing(n3) == 32;
    assert Spacing(n2) == 64;
    assert Spacing(n1) == 128;
  }

  lemma NearestIsNear(n: nat)
    ensures 2 * (n - Nearest(n)) <= Spacing(n) && 2 * (Nearest(n) - n) <= Spacing(n)
  {
    hide Spacing;
    var u := Spacing(n);
    var q, r := n / u, n % u;
    assert n == q * u + r && (q + 1) * u == q * u + u;
  }

  lemma TheShortOneReadsBack()
    ensures Nearest(EXACT) == EXACT && Nearest(SHORT) == EXACT
  {
    hide Spacing;
    SpacingThere(EXACT);
    SpacingThere(SHORT);
  }

  lemma TenAgain(k: nat)
    requires k >= 4
    ensures Ten(k) % 10_000 == 0
  {
    if k > 4 {
      TenAgain(k - 1);
    } else {
      assert Ten(3) == 10 * Ten(2) && Ten(2) == 10 * Ten(1);
    }
  }

  /** Nothing with four zeros reads back as it. */
  lemma FourZerosAreTooMany(k: nat)
    requires k >= 4
    ensures Nearest(Rounded(EXACT, k)) != EXACT
  {
    hide Nearest, Spacing, Ten, RoundedQuotient;
    var c := Rounded(EXACT, k);
    TenAgain(k);
    MultipleOfTenThousand(RoundedQuotient(EXACT, Ten(k)), Ten(k));
    NearestIsNear(c);
  }

  lemma MultipleOfTenThousand(q: nat, t: nat)
    requires t % 10_000 == 0
    ensures (q * t) % 10_000 == 0
  {
    var m := t / 10_000;
    assert t == 10_000 * m;
    assert q * t == 10_000 * (q * m);
  }

  lemma {:induction false} ShortensToTheShortOne(k: nat)
    requires k >= 3
    ensures Shorten(EXACT, k) == SHORT
    decreases k
  {
    hide Nearest, Rounded;
    if k == 3 {
      ThreeZeros();
      TheShortOneReadsBack();
    } else {
      FourZerosAreTooMany(k);
      ShortensToTheShortOne(k - 1);
    }
  }

  lemma ThreeZeros()
    ensures Rounded(EXACT, 3) == SHORT
  {
    assert Ten(3) == 10 * Ten(2) && Ten(2) == 10 * Ten(1) && Ten(1) == 10 * Ten(0);
  }

  lemma {:induction false} ManyDigits(d: nat, k: nat)
    requires d >= Ten(k)
    ensures Digits(d) > k
    decreases k
  {
    if k > 0 {
      ManyDigits(d / 10, k - 1);
    }
  }

  /** Being a double is not enough: two to the 60th is one, and is written as another number. */
  lemma AnExactDoubleCanChange()
    ensures Nearest(EXACT) == EXACT && Rewritten(EXACT) == SHORT
  {
    hide Nearest, Shorten, Digits, Ten;
    TheShortOneReadsBack();
    assert EXACT >= Ten(3) by { ThreeTens(); }
    ManyDigits(EXACT, 3);
    ShortensToTheShortOne(Digits(EXACT));
  }

  lemma ThreeTens()
    ensures Ten(3) == 1000
  {
    assert Ten(3) == 10 * Ten(2) && Ten(2) == 10 * Ten(1) && Ten(1) == 10 * Ten(0);
  }
}
