/** Three facts about products of reals, stated apart so that every other proof is linear. */
module RealFacts {
  lemma {:induction false} Mono(a: real, b: real, c: real)
    requires a <= b && c >= 0.0
    ensures a * c <= b * c
  {
  }

  lemma {:induction false} MonoTimes(a: real, b: real, c: real)
    requires a <= b && c >= 0.0
    ensures Times(a, c) <= Times(b, c)
  {
  }

  lemma {:induction false} Distribute(a: real, b: real, c: real)
    ensures (a + b) * c == a * c + b * c
    ensures (a - b) * c == a * c - b * c
  {
  }

  lemma {:induction false} Regroup(a: real, b: real, c: real)
    ensures (a * b) * c == a * (b * c)
  {
  }

  function Times(a: real, b: real): real {
    a * b
  }

  lemma {:induction false} DivideBack(x: real, q: real)
    requires q != 0.0
    ensures Times(x / q, q) == x
  {
  }
}

/** Non-negative binary64 arithmetic (section 4.3.1 of IEEE 754-2019): a double is the real it denotes,
    and every operation is the exact real operation followed by `Round`. Range limits are not modelled. */
module Binary64 {
  import opened RealFacts

  /** One rounding errs by at most this much: a relative error of 2^-53. */
  function Ulp(x: real): real {
    x / 9007199254740992.0
  }

  /** The distance between neighbouring doubles in the binade of `x`. */
  function Spacing(x: real): (q: real)
    requires x > 0.0
    ensures q > 0.0
    ensures 4503599627370496.0 * q <= x < 9007199254740992.0 * q
    decreases if x >= 1.0 then x.Floor else (1.0 / x).Floor + 1
  {
    if x >= 2.0 then
      HalvingShrinksFloor(x);
      2.0 * Spacing(x / 2.0)
    else if x < 1.0 then
      DoublingShrinksMeasure(x);
      Spacing(2.0 * x) / 2.0
    else 1.0 / 4503599627370496.0
  }

  lemma {:induction false} HalvingShrinksFloor(x: real)
    requires x >= 2.0
    ensures 0 <= (x / 2.0).Floor < x.Floor
  {
    assert x / 2.0 <= x - 1.0;
  }

  lemma {:induction false} DoublingShrinksMeasure(x: real)
    requires 0.0 < x < 1.0
    ensures 1.0 / x > 1.0
    ensures 2.0 * x < 1.0 ==> (1.0 / (2.0 * x)).Floor < (1.0 / x).Floor
  {
    var y := 1.0 / x;
    DivideBack(1.0, x);
    if 2.0 * x < 1.0 {
      HalfInverse(x);
      HalvingShrinksFloor(y);
    }
  }

  lemma {:induction false} HalfInverse(x: real)
    requires 0.0 < x < 0.5
    ensures 1.0 / (2.0 * x) == (1.0 / x) / 2.0
    ensures 1.0 / x >= 2.0
  {
  }

  function TiesToEven(y: real): (n: int)
    ensures -0.5 <= n as real - y <= 0.5
    ensures (n as real - y == 0.5 || n as real - y == -0.5) ==> n % 2 == 0
  {
    var f := y.Floor;
    if y - f as real < 0.5 || (y - f as real == 0.5 && f % 2 == 0) then f else f + 1
  }

  /** The nearest multiple of `q`, ties to the even multiple. */
  function RoundTo(x: real, q: real): real
    requires q > 0.0
  {
    Times(TiesToEven(x / q) as real, q)
  }

  function Round(x: real): (r: real)
    requires x >= 0.0
  {
    if x == 0.0 then 0.0 else RoundTo(x, Spacing(x))
  }

  function Distance(a: real, b: real): real {
    if a >= b then a - b else b - a
  }

  lemma {:induction false} ScaledSum(n: real, y: real, d: real, q: real)
    requires n == y + d
    ensures Times(n, q) == Times(y, q) + Times(d, q)
  {
    Distribute(y, d, q);
  }

  lemma {:induction false} GridPointError(x: real, n: real, y: real, d: real, q: real)
    requires q > 0.0 && 4503599627370496.0 * q <= x && Times(y, q) == x
    requires n == y + d && -0.5 <= d <= 0.5
    ensures Times(n, q) >= 0.0 && x - Ulp(x) <= Times(n, q) <= x + Ulp(x)
  {
    ScaledSum(n, y, d, q);
    HalfMultiple(d, q);
  }

  lemma {:induction false} HalfMultiple(d: real, q: real)
    requires q > 0.0 && -0.5 <= d <= 0.5
    ensures -0.5 * q <= Times(d, q) <= 0.5 * q
  {
    Mono(-0.5, d, q);
    Mono(d, 0.5, q);
  }

  lemma {:induction false} RoundToError(x: real, q: real)
    requires q > 0.0 && 4503599627370496.0 * q <= x
    ensures RoundTo(x, q) >= 0.0 && x - Ulp(x) <= RoundTo(x, q) <= x + Ulp(x)
  {
    var y := x / q;
    var n := TiesToEven(y) as real;
    DivideBack(x, q);
    GridPointError(x, n, y, n - y, q);
  }

  /** One rounding errs by at most half a unit in the last place, hence relatively by at most 2^-53. */
  lemma {:induction false} RoundingError(x: real)
    requires x >= 0.0
    ensures Round(x) >= 0.0
    ensures x - Ulp(x) <= Round(x) <= x + Ulp(x)
  {
    if x > 0.0 {
      RoundToError(x, Spacing(x));
    }
  }

  lemma {:induction false} QuotientRange(x: real, q: real)
    requires q > 0.0 && 4503599627370496.0 * q <= x < 9007199254740992.0 * q
    ensures 4503599627370496 <= TiesToEven(x / q) <= 9007199254740992
  {
    var y := x / q;
    DivideBack(x, q);
    if y < 4503599627370496.0 {
      StrictMono(y, 4503599627370496.0, q);
      assert false;
    }
    if y > 9007199254740992.0 {
      StrictMono(9007199254740992.0, y, q);
      assert false;
    }
  }

  /** `Round` picks a point of the 53-bit grid of the binade of `x`: its significand has 53 bits. */
  lemma {:induction false} RoundIsOnGrid(x: real)
    requires x > 0.0
    ensures Round(x) == RoundTo(x, Spacing(x))
    ensures 4503599627370496 <= TiesToEven(x / Spacing(x)) <= 9007199254740992
  {
    QuotientRange(x, Spacing(x));
  }

  lemma {:induction false} StrictMono(a: real, b: real, c: real)
    requires a < b && c > 0.0
    ensures a * c < b * c
  {
  }

  lemma {:induction false} NearerMultiple(x: real, y: real, n: real, m: real, q: real)
    requires q > 0.0 && Times(y, q) == x && Distance(n - y, 0.0) <= Distance(m - y, 0.0)
    ensures Distance(Times(n, q), x) <= Distance(Times(m, q), x)
  {
    ScaledSum(n, y, n - y, q);
    ScaledSum(m, y, m - y, q);
    ScaleDistances(n - y, m - y, q);
  }

  lemma {:induction false} NearestOnGrid(x: real, q: real, m: int)
    requires q > 0.0
    ensures Distance(RoundTo(x, q), x) <= Distance(Times(m as real, q), x)
  {
    DivideBack(x, q);
    NearestInteger(x / q, m);
    NearerMultiple(x, x / q, TiesToEven(x / q) as real, m as real, q);
  }

  // ---- `Round` is rounding to nearest among all doubles

  /** 2^e. */
  function Pow2(e: int): (p: real)
    ensures p > 0.0
    decreases if e >= 0 then e else -e
  {
    if e == 0 then 1.0 else if e > 0 then 2.0 * Pow2(e - 1) else Pow2(e + 1) / 2.0
  }

  lemma {:induction false} Pow2Doubles(e: int)
    ensures Pow2(e + 1) == 2.0 * Pow2(e)
  {
  }

  /** 2^d copies of 2^e make 2^(e + d). */
  lemma {:induction false} Pow2Multiple(e: int, d: nat) returns (n: nat)
    ensures n >= 1 && (d >= 1 ==> n >= 2)
    ensures Times(n as real, Pow2(e)) == Pow2(e + d)
  {
    if d == 0 {
      n := 1;
    } else {
      var half := Pow2Multiple(e, d - 1);
      n := 2 * half;
      Pow2Doubles(e + d - 1);
      Regroup(2.0, half as real, Pow2(e));
    }
  }

  /** A double: a significand of at most 53 bits and a sign, times a power of two. */
  ghost predicate IsDouble(r: real) {
    exists m: int, e: int :: IsDoubleWith(r, m, e)
  }

  predicate IsDoubleWith(r: real, m: int, e: int) {
    -9007199254740992 < m < 9007199254740992 && r == Times(m as real, Pow2(e))
  }

  lemma {:induction false} SpacingIsPowerOfTwo(x: real) returns (e: int)
    requires x > 0.0
    ensures Spacing(x) == Pow2(e)
    decreases if x >= 1.0 then x.Floor else (1.0 / x).Floor + 1
  {
    if x >= 2.0 {
      HalvingShrinksFloor(x);
      var half := SpacingIsPowerOfTwo(x / 2.0);
      e := half + 1;
      Pow2Doubles(half);
    } else if x < 1.0 {
      DoublingShrinksMeasure(x);
      var double := SpacingIsPowerOfTwo(2.0 * x);
      e := double - 1;
      Pow2Doubles(e);
    } else {
      e := -52;
      assert Pow2(-52) == 1.0 / 4503599627370496.0 by {
        TwoToMinus52();
      }
    }
  }

  lemma {:induction false} TwoToMinus52()
    ensures Pow2(-52) == 1.0 / 4503599627370496.0
  {
    assert Pow2(-13) == 1.0 / 8192.0;
    assert Pow2(-26) == 1.0 / 67108864.0;
    assert Pow2(-39) == 1.0 / 549755813888.0;
  }

  lemma {:induction false} RoundIsDouble(x: real)
    requires x >= 0.0
    ensures IsDouble(Round(x))
  {
    if x == 0.0 {
      assert IsDoubleWith(0.0, 0, 0);
    } else {
      var e := SpacingIsPowerOfTwo(x);
      RoundIsOnGrid(x);
      var n := TiesToEven(x / Spacing(x));
      if n < 9007199254740992 {
        assert IsDoubleWith(Round(x), n, e);
      } else {
        Pow2Doubles(e);
        Regroup(4503599627370496.0, 2.0, Pow2(e));
        assert IsDoubleWith(Round(x), 4503599627370496, e + 1);
      }
    }
  }

  lemma {:induction false} CopiesOfCopies(m: int, copies: nat, p: real, q: real)
    requires Times(copies as real, q) == p
    ensures Times(m as real, p) == Times((m * copies) as real, q)
  {
    Regroup(m as real, copies as real, q);
  }

  lemma {:induction false} BelowTheBinade(m: int, copies: nat, p: real, q: real)
    requires p > 0.0 && copies >= 2 && Times(copies as real, p) == q && m <= 9007199254740992
    ensures Times(m as real, p) <= Times(4503599627370496.0, q)
  {
    Regroup(4503599627370496.0, copies as real, p);
    MonoTimes(m as real, 4503599627370496.0 * copies as real, p);
  }

  /** A double is a multiple of the spacing at `x`, or lies below the binade of `x`. */
  lemma {:induction false} DoubleOnGridOrBelow(r: real, m: int, f: int, e: int) returns (n: int)
    requires IsDoubleWith(r, m, f)
    ensures r == Times(n as real, Pow2(e)) || (n == 4503599627370496 && r <= Times(n as real, Pow2(e)))
  {
    if f >= e {
      var copies := Pow2Multiple(e, f - e);
      n := m * copies;
      CopiesOfCopies(m, copies, Pow2(f), Pow2(e));
    } else {
      var copies := Pow2Multiple(f, e - f);
      n := 4503599627370496;
      BelowTheBinade(m, copies, Pow2(f), Pow2(e));
    }
  }

  /** No double is nearer to `x`. */
  lemma {:induction false} RoundIsNearest(x: real, r: real)
    requires x >= 0.0 && IsDouble(r)
    ensures Distance(Round(x), x) <= Distance(r, x)
  {
    if x > 0.0 {
      var e := SpacingIsPowerOfTwo(x);
      var m: int, f: int :| IsDoubleWith(r, m, f);
      var n := DoubleOnGridOrBelow(r, m, f, e);
      NearestOnGrid(x, Spacing(x), n);
    }
  }

  /** When another double is as near, the significand that `Round` chose is even. */
  lemma {:induction false} TiesGoToEven(x: real, r: real)
    requires x > 0.0 && IsDouble(r)
    requires r != Round(x) && Distance(r, x) == Distance(Round(x), x)
    ensures TiesToEven(x / Spacing(x)) % 2 == 0
  {
    var e := SpacingIsPowerOfTwo(x);
    var m: int, f: int :| IsDoubleWith(r, m, f);
    var n := DoubleOnGridOrBelow(r, m, f, e);
    AsNearIsOnGrid(x, r, Spacing(x), n);
    TieOnGrid(x, Spacing(x), n);
  }

  lemma {:induction false} AsNearIsOnGrid(x: real, r: real, q: real, n: int)
    requires q > 0.0 && 4503599627370496.0 * q <= x
    requires r == Times(n as real, q) || (n == 4503599627370496 && r <= Times(n as real, q))
    requires Distance(r, x) == Distance(RoundTo(x, q), x)
    ensures r == Times(n as real, q)
  {
    NearestOnGrid(x, q, n);
  }

  lemma {:induction false} TieOnGrid(x: real, q: real, m: int)
    requires q > 0.0 && Times(m as real, q) != RoundTo(x, q)
    requires Distance(Times(m as real, q), x) == Distance(RoundTo(x, q), x)
    ensures TiesToEven(x / q) % 2 == 0
  {
    var y := x / q;
    DivideBack(x, q);
    EquallyNear(x, y, TiesToEven(y) as real, m as real, q);
    TieIsEven(y, m);
  }

  lemma {:induction false} TieIsEven(y: real, m: int)
    requires m != TiesToEven(y) && Distance(TiesToEven(y) as real - y, 0.0) == Distance(m as real - y, 0.0)
    ensures TiesToEven(y) % 2 == 0
  {
    var n := TiesToEven(y);
    if m > n {
      assert m as real >= n as real + 1.0;
    } else {
      assert m as real <= n as real - 1.0;
    }
  }

  lemma {:induction false} EquallyNear(x: real, y: real, n: real, m: real, q: real)
    requires q > 0.0 && Times(y, q) == x
    requires Distance(Times(n, q), x) == Distance(Times(m, q), x)
    ensures Distance(n - y, 0.0) == Distance(m - y, 0.0)
  {
    ScaledSum(n, y, n - y, q);
    ScaledSum(m, y, m - y, q);
    ScaledDistance(n - y, q);
    ScaledDistance(m - y, q);
    Cancel(Distance(n - y, 0.0), Distance(m - y, 0.0), q);
  }

  lemma {:induction false} Cancel(a: real, b: real, q: real)
    requires q > 0.0 && Times(a, q) == Times(b, q)
    ensures a == b
  {
  }

  lemma {:induction false} NearestInteger(y: real, m: int)
    ensures Distance(TiesToEven(y) as real - y, 0.0) <= Distance(m as real - y, 0.0)
  {
    var n := TiesToEven(y);
    if m > n {
      assert m as real >= n as real + 1.0;
    } else if m < n {
      assert m as real <= n as real - 1.0;
    }
  }

  lemma {:induction false} ScaledDistance(a: real, q: real)
    requires q > 0.0
    ensures Distance(Times(a, q), 0.0) == Times(Distance(a, 0.0), q)
  {
    if a >= 0.0 {
      Mono(0.0, a, q);
    } else {
      Mono(a, 0.0, q);
      Distribute(a, -a, q);
    }
  }

  lemma {:induction false} ScaleDistances(a: real, b: real, q: real)
    requires q > 0.0 && Distance(a, 0.0) <= Distance(b, 0.0)
    ensures Distance(Times(a, q), 0.0) <= Distance(Times(b, q), 0.0)
  {
    ScaledDistance(a, q);
    ScaledDistance(b, q);
    MonoTimes(Distance(a, 0.0), Distance(b, 0.0), q);
  }
}

/** Prices and totals: DECIMAL(10,2) columns are whole numbers of cents, JavaScript numbers are doubles. */
module Money {
  import opened Binary64
  import opened RealFacts

  /** The largest value of a DECIMAL(10,2) column, in cents. */
  const MAX_CENTS: nat := 9999999999

  /** The number of order lines up to which the printed total is proved exact. */
  const MAX_LINES: nat := 450000

  datatype Charge = Charge(price: nat, quantity: nat)

  /** `Number(price)` for a DECIMAL(10,2) price. */
  function NumberOf(cents: nat): real {
    Round(cents as real / 100.0)
  }

  /** `x.toFixed(2)` as a number of cents. */
  function ToFixedCents(x: real): int {
    (x * 100.0 + 0.5).Floor
  }

  function CentsDistance(cents: int, x: real): real {
    Distance(cents as real / 100.0, x)
  }

  /** `cents` is the nearest number of cents to `x`, the larger one on a tie (section 21.1.3.3 of ECMA-262). */
  ghost predicate NearestCents(cents: int, x: real) {
    forall n: int ::
      && CentsDistance(cents, x) <= CentsDistance(n, x)
      && (CentsDistance(cents, x) == CentsDistance(n, x) ==> n <= cents)
  }

  lemma {:induction false} ToFixedIsNearest(x: real)
    ensures NearestCents(ToFixedCents(x), x)
  {
    forall n: int
      ensures CentsDistance(ToFixedCents(x), x) <= CentsDistance(n, x)
      ensures CentsDistance(ToFixedCents(x), x) == CentsDistance(n, x) ==> n <= ToFixedCents(x)
    {
      ToFixedIsNearer(x, n);
    }
  }

  lemma {:induction false} ToFixedIsNearer(x: real, n: int)
    ensures CentsDistance(ToFixedCents(x), x) <= CentsDistance(n, x)
    ensures CentsDistance(ToFixedCents(x), x) == CentsDistance(n, x) ==> n <= ToFixedCents(x)
  {
    var r := ToFixedCents(x);
    assert -0.5 < r as real - x * 100.0 <= 0.5;
    if n > r {
      assert n as real >= r as real + 1.0;
    } else if n < r {
      assert n as real <= r as real - 1.0;
    }
  }

  /** The left-to-right `reduce` over the locked lines. */
  function RunningTotal(charges: seq<Charge>): (t: real)
    ensures t >= 0.0
  {
    if charges == [] then 0.0
    else
      var c := charges[|charges| - 1];
      Additions(RunningTotal(charges[..|charges| - 1]), c)
  }

  /** `entry.unitPrice * entry.quantity`. */
  function LineAmount(c: Charge): (t: real)
    ensures t >= 0.0
  {
    LineWithin(c);
    Round(Times(NumberOf(c.price), c.quantity as real))
  }

  function Additions(sum: real, c: Charge): (t: real)
    requires sum >= 0.0
    ensures t >= 0.0
  {
    RoundingError(sum + LineAmount(c));
    Round(sum + LineAmount(c))
  }

  /** `totalAmount.toFixed(2)`. */
  function PrintedTotal(charges: seq<Charge>): int {
    ToFixedCents(RunningTotal(charges))
  }

  function ExactTotal(charges: seq<Charge>): nat {
    if charges == [] then 0
    else
      var c := charges[|charges| - 1];
      ExactTotal(charges[..|charges| - 1]) + c.price * c.quantity
  }

  /** `r` is a double, and no double is nearer to `x`. */
  ghost predicate NearestDouble(r: real, x: real) {
    IsDouble(r) && forall d: real :: IsDouble(d) ==> Distance(r, x) <= Distance(d, x)
  }

  lemma {:induction false} RoundIsNearestDouble(x: real)
    requires x >= 0.0
    ensures NearestDouble(Round(x), x)
  {
    RoundIsDouble(x);
    forall d: real | IsDouble(d)
      ensures Distance(Round(x), x) <= Distance(d, x)
    {
      RoundIsNearest(x, d);
    }
  }

  /** The price is the double nearest to the catalogue price, each line is the double nearest to price times quantity,
      and each addition gives the double nearest to the sum so far plus the line. */
  lemma {:induction false} EveryOperationIsRounded(charges: seq<Charge>, c: Charge)
    ensures NearestDouble(NumberOf(c.price), c.price as real / 100.0)
    ensures NearestDouble(LineAmount(c), NumberOf(c.price) * c.quantity as real)
    ensures RunningTotal([]) == 0.0
    ensures NearestDouble(RunningTotal(charges + [c]), RunningTotal(charges) + LineAmount(c))
  {
    RoundIsNearestDouble(c.price as real / 100.0);
    LineWithin(c);
    RoundIsNearestDouble(Times(NumberOf(c.price), c.quantity as real));
    RoundIsNearestDouble(RunningTotal(charges) + LineAmount(c));
    assert (charges + [c])[..|charges|] == charges;
  }

  /** Relative error allowed after `n` additions: n + 2 roundings, each a little more than 2^-53. */
  function Slack(n: nat): real {
    (n + 2) as real * 1048577.0 / 9444732965739290427392.0
  }

  predicate Within(approx: real, exact: real, slack: real) {
    exact - slack * exact <= approx <= exact + slack * exact
  }

  lemma {:induction false} WidenWithin(approx: real, exact: real, small: real, large: real)
    requires exact >= 0.0 && small <= large && Within(approx, exact, small)
    ensures Within(approx, exact, large)
  {
    Mono(small, large, exact);
  }

  lemma {:induction false} AddWithin(a: real, b: real, x: real, y: real, d: real)
    requires Within(a, x, d) && Within(b, y, d)
    ensures Within(a + b, x + y, d)
  {
    assert d * x + d * y == d * (x + y);
  }

  lemma {:induction false} ScaleWithin(a: real, x: real, q: real, d: real)
    requires q >= 0.0 && a >= 0.0 && Within(a, x, d)
    ensures Within(a * q, x * q, d) && a * q >= 0.0
  {
    Mono(x - d * x, a, q);
    Mono(a, x + d * x, q);
    Mono(0.0, a, q);
    Distribute(x, d * x, q);
    Regroup(d, x, q);
  }

  lemma {:induction false} RoundedSlack(x: real, d: real)
    ensures (d + Ulp(1.0 + d)) * x == d * x + Ulp(x + d * x)
  {
  }

  /** A further rounding widens the slack from `d` to `d + Ulp(1 + d)`. */
  lemma {:induction false} RoundWithin(a: real, x: real, d: real)
    requires a >= 0.0 && Within(a, x, d)
    ensures Within(Round(a), x, d + Ulp(1.0 + d))
  {
    RoundingError(a);
    RoundedSlack(x, d);
  }

  lemma {:induction false} NumberOfWithin(cents: nat)
    ensures NumberOf(cents) >= 0.0
    ensures Within(NumberOf(cents), cents as real / 100.0, Ulp(1.0))
  {
    RoundingError(cents as real / 100.0);
  }

  lemma {:induction false} ProductWithin(p: real, e: real, q: real)
    requires p >= 0.0 && e >= 0.0 && q >= 0.0 && Within(p, e, Ulp(1.0))
    ensures Times(p, q) >= 0.0 && Round(Times(p, q)) >= 0.0
    ensures Within(Round(Times(p, q)), Times(e, q), Slack(0))
  {
    ScaleWithin(p, e, q, Ulp(1.0));
    Mono(0.0, e, q);
    RoundTwice(Times(p, q), Times(e, q));
  }

  lemma {:induction false} RoundTwice(a: real, x: real)
    requires a >= 0.0 && x >= 0.0 && Within(a, x, Ulp(1.0))
    ensures Round(a) >= 0.0 && Within(Round(a), x, Slack(0))
  {
    RoundingError(a);
    RoundWithin(a, x, Ulp(1.0));
    WidenWithin(Round(a), x, Ulp(1.0) + Ulp(1.0 + Ulp(1.0)), Slack(0));
  }

  lemma {:induction false} LineWithin(c: Charge)
    ensures Times(NumberOf(c.price), c.quantity as real) >= 0.0
    ensures Round(Times(NumberOf(c.price), c.quantity as real)) >= 0.0
    ensures var exact := (c.price * c.quantity) as real / 100.0;
      Within(Round(Times(NumberOf(c.price), c.quantity as real)), exact, Slack(0))
  {
    NumberOfWithin(c.price);
    ProductWithin(NumberOf(c.price), c.price as real / 100.0, c.quantity as real);
    LineValue(c);
  }

  lemma {:induction false} LineValue(c: Charge)
    ensures Times(c.price as real / 100.0, c.quantity as real) == (c.price * c.quantity) as real / 100.0
  {
  }

  lemma {:induction false} SlackGrows(n: nat)
    requires n <= MAX_LINES
    ensures Slack(0) <= Slack(n)
    ensures Slack(n) + Ulp(1.0 + Slack(n)) <= Slack(n + 1)
  {
    assert (n + 2) as real <= 450002.0;
    assert (n + 3) as real == (n + 2) as real + 1.0;
  }

  lemma {:induction false} RunningTotalWithin(charges: seq<Charge>)
    requires |charges| <= MAX_LINES
    ensures Within(RunningTotal(charges), ExactTotal(charges) as real / 100.0, Slack(|charges|))
  {
    if charges == [] {
    } else {
      var front, c := charges[..|charges| - 1], charges[|charges| - 1];
      RunningTotalWithin(front);
      AdditionWithin(RunningTotal(front), ExactTotal(front), |front|, c);
    }
  }

  lemma {:induction false} AdditionWithin(sum: real, cents: nat, n: nat, c: Charge)
    requires sum >= 0.0 && n < MAX_LINES && Within(sum, cents as real / 100.0, Slack(n))
    ensures Within(Additions(sum, c), (cents + c.price * c.quantity) as real / 100.0, Slack(n + 1))
  {
    LineWithin(c);
    SumWithin(sum, LineAmount(c), cents, c.price * c.quantity, n);
  }

  lemma {:induction false} SumWithin(sum: real, amount: real, cents: nat, more: nat, n: nat)
    requires sum >= 0.0 && amount >= 0.0 && n < MAX_LINES
    requires Within(sum, cents as real / 100.0, Slack(n)) && Within(amount, more as real / 100.0, Slack(0))
    ensures Within(Round(sum + amount), (cents + more) as real / 100.0, Slack(n + 1))
  {
    SlackGrows(n);
    var x, y := cents as real / 100.0, more as real / 100.0;
    WidenWithin(amount, y, Slack(0), Slack(n));
    AddWithin(sum, amount, x, y, Slack(n));
    RoundWithin(sum + amount, x + y, Slack(n));
    WidenWithin(Round(sum + amount), x + y, Slack(n) + Ulp(1.0 + Slack(n)), Slack(n + 1));
  }

  lemma {:induction false} SlackBound(n: nat)
    requires n <= MAX_LINES
    ensures 0.0 <= Slack(n) && Slack(n) * 9999999999.0 < 0.4999
  {
    assert (n + 2) as real <= 450002.0;
  }

  lemma {:induction false} PrintsExactly(approx: real, cents: nat, slack: real)
    requires Within(approx, cents as real / 100.0, slack)
    requires 0.0 <= slack && slack * 9999999999.0 < 0.4999
    ensures cents <= MAX_CENTS ==> ToFixedCents(approx) == cents
    ensures cents > MAX_CENTS ==> ToFixedCents(approx) > MAX_CENTS
  {
    var t := cents as real;
    Regroup(slack, t / 100.0, 100.0);
    assert -(slack * t) <= approx * 100.0 - t <= slack * t;
    if cents <= MAX_CENTS {
      Mono(t, 9999999999.0, slack);
    } else {
      assert t >= 10000000000.0;
      Mono(10000000000.0, t, 1.0 - slack);
      Distribute(1.0, slack, t);
    }
  }

  /** The total printed from binary64 arithmetic is the exact number of cents whenever that fits DECIMAL(10,2),
      and the column accepts the printed total exactly when the exact total fits. */
  lemma {:induction false} PrintedTotalIsExact(charges: seq<Charge>)
    requires |charges| <= MAX_LINES
    ensures ExactTotal(charges) <= MAX_CENTS ==> PrintedTotal(charges) == ExactTotal(charges)
    ensures PrintedTotal(charges) <= MAX_CENTS <==> ExactTotal(charges) <= MAX_CENTS
  {
    RunningTotalWithin(charges);
    SlackBound(|charges|);
    PrintsExactly(RunningTotal(charges), ExactTotal(charges), Slack(|charges|));
  }

  lemma {:induction false} PrintedPriceIsExact(cents: nat)
    requires cents <= MAX_CENTS
    ensures ToFixedCents(NumberOf(cents)) == cents
  {
    NumberOfWithin(cents);
    PrintsExactly(NumberOf(cents), cents, Ulp(1.0));
  }

  // ---- The same round trip on the printed strings

  function DigitChar(d: nat): char
    requires d < 10
  {
    '0' + d as char
  }

  function Digits(n: nat): (s: string)
    ensures |s| > 0 && forall i :: 0 <= i < |s| ==> '0' <= s[i] <= '9'
  {
    if n < 10 then [DigitChar(n)] else Digits(n / 10) + [DigitChar(n % 10)]
  }

  /** How a DECIMAL(10,2) column and `toFixed(2)` print a number of cents. */
  function DecimalString(cents: nat): string {
    Digits(cents / 100) + "." + [DigitChar(cents / 10 % 10), DigitChar(cents % 10)]
  }

  function DigitsValue(s: string): nat {
    if s == [] then 0
    else 10 * DigitsValue(s[..|s| - 1]) + (if '0' <= s[|s| - 1] <= '9' then (s[|s| - 1] - '0') as nat else 0)
  }

  /** The real denoted by a decimal literal with two fraction digits. */
  function DecimalValue(s: string): real
    requires |s| >= 3
  {
    DigitsValue(s[..|s| - 3]) as real + DigitsValue(s[|s| - 2..]) as real / 100.0
  }

  function ParseNumber(s: string): real
    requires |s| >= 3
  {
    Round(DecimalValue(s))
  }

  function ToFixed2(x: real): string
    requires x >= 0.0
  {
    DecimalString(ToFixedCents(x))
  }

  lemma {:induction false} DigitsRoundTrip(n: nat)
    ensures DigitsValue(Digits(n)) == n
  {
    if n < 10 {
    } else {
      DigitsRoundTrip(n / 10);
      assert Digits(n)[..|Digits(n)| - 1] == Digits(n / 10);
    }
  }

  lemma {:induction false} TwoDigitsValue(a: nat, b: nat)
    requires a < 10 && b < 10
    ensures DigitsValue([DigitChar(a), DigitChar(b)]) == 10 * a + b
  {
    var s := [DigitChar(a), DigitChar(b)];
    assert s[..1] == [DigitChar(a)];
    assert DigitsValue([DigitChar(a)]) == a by {
      assert [DigitChar(a)][..0] == [];
    }
  }

  lemma {:induction false} DecimalStringDenotes(cents: nat)
    ensures |DecimalString(cents)| >= 4 && DecimalString(cents)[|DecimalString(cents)| - 3] == '.'
    ensures forall i :: 0 <= i < |DecimalString(cents)| && i != |DecimalString(cents)| - 3 ==>
      '0' <= DecimalString(cents)[i] <= '9'
    ensures DecimalValue(DecimalString(cents)) == cents as real / 100.0
  {
    var s := DecimalString(cents);
    assert s[..|s| - 3] == Digits(cents / 100);
    assert s[|s| - 2..] == [DigitChar(cents / 10 % 10), DigitChar(cents % 10)];
    DigitsRoundTrip(cents / 100);
    TwoDigitsValue(cents / 10 % 10, cents % 10);
    assert cents == 100 * (cents / 100) + 10 * (cents / 10 % 10) + cents % 10;
  }

  /** `Number(price).toFixed(2)` returns the very string the price column held. */
  lemma {:induction false} PriceRoundTrip(cents: nat)
    requires cents <= MAX_CENTS
    ensures |DecimalString(cents)| >= 3 && ParseNumber(DecimalString(cents)) >= 0.0
    ensures ToFixed2(ParseNumber(DecimalString(cents))) == DecimalString(cents)
  {
    DecimalStringDenotes(cents);
    NumberOfWithin(cents);
    PrintedPriceIsExact(cents);
  }
}
