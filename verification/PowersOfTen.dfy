/** Decimal digit arithmetic: shifting, dropping and counting digits, and powers of ten as reals.
    Everything here is defined digit by digit, so that the laws are linear. */
module PowersOfTen {
  /** c followed by k zeros. */
  function Scale(c: nat, k: nat): (r: nat)
    ensures r >= c
  {
    if k == 0 then c else 10 * Scale(c, k - 1)
  }

  function Pow10(k: nat): (r: nat)
    ensures r >= 1
  {
    Scale(1, k)
  }

  /** c without its last k digits. */
  function Drop(c: nat, k: nat): nat {
    if k == 0 then c else Drop(c, k - 1) / 10
  }

  /** Number of decimal digits; zero has one. */
  function Digits(c: nat): (r: nat)
    ensures r >= 1
  {
    if c < 10 then 1 else 1 + Digits(c / 10)
  }

  lemma {:induction false} ScaleSum(a: nat, b: nat, k: nat)
    ensures Scale(a + b, k) == Scale(a, k) + Scale(b, k)
  {
    if k > 0 {
      ScaleSum(a, b, k - 1);
    }
  }

  lemma {:induction false} ScaleMore(c: nat, k: nat, m: nat)
    ensures Scale(Scale(c, k), m) == Scale(c, k + m)
  {
    if m > 0 {
      ScaleMore(c, k, m - 1);
    }
  }

  lemma {:induction false} ScaleMonotone(a: nat, b: nat, k: nat)
    requires a < b
    ensures Scale(a, k) < Scale(b, k)
  {
    if k > 0 {
      ScaleMonotone(a, b, k - 1);
    }
  }

  lemma {:induction false} ScaleIsTimes(c: nat, k: nat)
    ensures Scale(c, k) == c * Pow10(k)
  {
    if k > 0 {
      ScaleIsTimes(c, k - 1);
    }
  }

  lemma {:induction false} PowMonotone(m: nat, n: nat)
    requires m <= n
    ensures Pow10(m) <= Pow10(n)
    ensures m < n ==> 10 * Pow10(m) <= Pow10(n)
    decreases n
  {
    if m < n {
      PowMonotone(m, n - 1);
    }
  }

  lemma ScaleTens(d: nat, q: nat, k: nat)
    requires q == d / 10
    ensures Scale(q, k + 1) <= Scale(d, k) && Scale(d + 1, k) <= Scale(q + 1, k + 1)
  {
    ScaleMore(q, 1, k);
    ScaleMore(q + 1, 1, k);
    assert Scale(q, 1) == 10 * q && Scale(q + 1, 1) == 10 * q + 10;
    if 10 * q < d { ScaleMonotone(10 * q, d, k); }
    if d + 1 < 10 * q + 10 { ScaleMonotone(d + 1, 10 * q + 10, k); }
  }

  /** What is dropped is less than one unit of the last digit kept. */
  lemma {:induction false} DropBounds(c: nat, k: nat)
    ensures Scale(Drop(c, k), k) <= c < Scale(Drop(c, k) + 1, k)
  {
    if k > 0 {
      DropBounds(c, k - 1);
      ScaleTens(Drop(c, k - 1), Drop(c, k), k - 1);
    }
  }

  lemma {:induction false} DigitsBounds(c: nat)
    ensures c < Pow10(Digits(c))
    ensures c > 0 ==> Pow10(Digits(c) - 1) <= c
  {
    if c >= 10 {
      DigitsBounds(c / 10);
    }
  }

  lemma DigitsAtMost(c: nat, k: nat)
    ensures k >= 1 && c < Pow10(k) ==> Digits(c) <= k
    ensures c >= Pow10(k) ==> Digits(c) > k
  {
    DigitsBounds(c);
    if k >= 1 && c < Pow10(k) && Digits(c) > k {
      PowMonotone(k, Digits(c) - 1);
    }
    if c >= Pow10(k) && Digits(c) <= k {
      PowMonotone(Digits(c), k);
    }
  }

  // ----- powers of ten as reals -----

  /** x is 10^e. Stated as a relation, so that powers stay symbols in proofs. */
  ghost predicate IsPower(e: int, x: real)
    decreases if e < 0 then -e else e
  {
    if e == 0 then x == 1.0 else if e > 0 then IsPower(e - 1, x / 10.0) else IsPower(e + 1, 10.0 * x)
  }

  lemma {:induction false} PowerExists(e: int)
    ensures exists x: real :: x > 0.0 && IsPower(e, x)
    decreases if e < 0 then -e else e
  {
    if e == 0 {
      assert IsPower(e, 1.0);
    } else if e > 0 {
      PowerExists(e - 1);
      var y: real :| y > 0.0 && IsPower(e - 1, y);
      assert (10.0 * y) / 10.0 == y && IsPower(e, 10.0 * y);
    } else {
      PowerExists(e + 1);
      var y: real :| y > 0.0 && IsPower(e + 1, y);
      assert 10.0 * (y / 10.0) == y && IsPower(e, y / 10.0);
    }
  }

  lemma {:induction false} PowerUnique(e: int, x: real, y: real)
    requires IsPower(e, x) && IsPower(e, y)
    ensures x == y
    decreases if e < 0 then -e else e
  {
    if e > 0 {
      PowerUnique(e - 1, x / 10.0, y / 10.0);
    } else if e < 0 {
      PowerUnique(e + 1, 10.0 * x, 10.0 * y);
    }
  }

  /** Ten to any integer power. */
  ghost function P(e: int): (r: real)
    ensures r > 0.0 && IsPower(e, r)
  {
    PowerExists(e);
    var x: real :| x > 0.0 && IsPower(e, x);
    x
  }

  lemma PStep(e: int)
    ensures P(e) == 10.0 * P(e - 1)
  {
    PowerUnique(e, P(e), 10.0 * P(e - 1));
  }

  lemma {:induction false} PMonotone(a: int, b: int)
    requires a <= b
    ensures P(a) <= P(b)
    decreases b - a
  {
    if a < b {
      PMonotone(a, b - 1);
      PStep(b);
    }
  }

  // ----- counting units -----

  /** x is n units of size u. */
  ghost predicate IsCount(n: nat, u: real, x: real) {
    if n == 0 then x == 0.0 else IsCount(n - 1, u, x - u)
  }

  lemma {:induction false} CountExists(n: nat, u: real)
    ensures exists x: real :: IsCount(n, u, x)
  {
    if n == 0 {
      assert IsCount(0, u, 0.0);
    } else {
      CountExists(n - 1, u);
      var y: real :| IsCount(n - 1, u, y);
      assert (y + u) - u == y && IsCount(n, u, y + u);
    }
  }

  lemma {:induction false} CountUnique(n: nat, u: real, x: real, y: real)
    requires IsCount(n, u, x) && IsCount(n, u, y)
    ensures x == y
  {
    if n > 0 {
      CountUnique(n - 1, u, x - u, y - u);
    }
  }

  /** n units of size u. */
  ghost function Units(n: nat, u: real): (r: real)
    ensures IsCount(n, u, r)
  {
    CountExists(n, u);
    var x: real :| IsCount(n, u, x);
    x
  }

  lemma UnitsStep(n: nat, u: real)
    ensures n == 0 ==> Units(n, u) == 0.0
    ensures n > 0 ==> Units(n, u) == Units(n - 1, u) + u
  {
    if n > 0 {
      assert IsCount(n - 1, u, (Units(n - 1, u) + u) - u);
      CountUnique(n, u, Units(n, u), Units(n - 1, u) + u);
    }
  }

  lemma {:induction false} UnitsAdd(m: nat, n: nat, u: real)
    ensures Units(m + n, u) == Units(m, u) + Units(n, u)
  {
    UnitsStep(n, u);
    if n > 0 {
      UnitsAdd(m, n - 1, u);
      UnitsStep(m + n, u);
    }
  }

  lemma UnitsOne(u: real)
    ensures Units(0, u) == 0.0 && Units(1, u) == u
  {
    UnitsStep(0, u);
    UnitsStep(1, u);
  }

  lemma {:induction false} UnitsNotNegative(n: nat, u: real)
    requires u > 0.0
    ensures Units(n, u) >= 0.0
    ensures n > 0 ==> Units(n, u) >= u
  {
    UnitsStep(n, u);
    if n > 0 {
      UnitsNotNegative(n - 1, u);
    }
  }

  lemma UnitsGap(m: nat, n: nat, u: real)
    requires u > 0.0 && m < n
    ensures Units(m, u) + u <= Units(n, u)
  {
    UnitsAdd(m, n - m, u);
    UnitsNotNegative(n - m, u);
  }

  lemma UnitsLe(m: nat, n: nat, u: real)
    requires m <= n && u > 0.0
    ensures Units(m, u) <= Units(n, u)
  {
    if m < n { UnitsGap(m, n, u); }
  }

  lemma {:induction false} UnitsTen(n: nat, u: real, w: real)
    requires w == 10.0 * u
    ensures Units(n, w) == 10.0 * Units(n, u) == Units(10 * n, u)
  {
    UnitsStep(n, u);
    UnitsStep(n, w);
    UnitsOne(u);
    if n > 0 {
      UnitsTen(n - 1, u, w);
      UnitsAdd(10 * (n - 1), 10, u);
      UnitsOfTen(u);
    }
  }

  lemma UnitsOfTen(u: real)
    ensures Units(10, u) == 10.0 * u
  {
    UnitsOne(u);
    UnitsAdd(1, 1, u);
    UnitsAdd(2, 2, u);
    UnitsAdd(4, 4, u);
    UnitsAdd(8, 2, u);
  }

  /** Counting in a unit 10^k times larger. */
  lemma {:induction false} UnitsScale(c: nat, k: nat, e: int, b: int)
    requires b == e + k
    ensures Units(c, P(b)) == Units(Scale(c, k), P(e))
    decreases k
  {
    if k > 0 {
      UnitsScale(c, k - 1, e + 1, b);
      PStep(e + 1);
      UnitsTen(Scale(c, k - 1), P(e), P(e + 1));
    }
  }

  /** A power of ten times n units of another power. */
  lemma {:induction false} PowerTimesUnits(e: int, n: nat, f: int, sum: int)
    requires sum == e + f
    ensures P(e) * Units(n, P(f)) == Units(n, P(sum))
    decreases if e < 0 then -e else e
  {
    var y := Units(n, P(f));
    if e == 0 {
    } else if e > 0 {
      PowerTimesUnits(e - 1, n, f, sum - 1);
      PStep(e);
      PStep(sum);
      UnitsTen(n, P(sum - 1), P(sum));
    } else {
      PowerTimesUnits(e + 1, n, f, sum + 1);
      PStep(e + 1);
      PStep(sum + 1);
      UnitsTen(n, P(sum), P(sum + 1));
    }
  }
}
