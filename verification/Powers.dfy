/** Powers of two, and the facts about products and quotients the arithmetic models rest on. */
module Powers {
  function Pow2(n: nat): (p: nat)
    ensures p > 0
  {
    if n == 0 then 1 else 2 * Pow2(n - 1)
  }

  lemma MulMonotone(d: nat, x: nat, y: nat)
    requires x < y
    ensures d * x + d <= d * y
  {
    assert d * y == d * x + d * (y - x);
    assert d * (y - x) == d + d * (y - x - 1);
  }

  lemma DivUnique(a: nat, d: nat, q: nat, r: nat)
    requires r < d && a == d * q + r
    ensures a / d == q && a % d == r
  {
    if q < a / d {
      MulMonotone(d, q, a / d);
    } else if a / d < q {
      MulMonotone(d, a / d, q);
    }
  }

  lemma DivTwice(a: nat, x: nat, y: nat)
    requires x > 0 && y > 0
    ensures x * y > 0 && a / (x * y) == a / x / y
  {
    var b := a / x;
    var q, r := b / y, b % y;
    MulMonotone(x, 0, y);
    MulMonotone(x, r, y);
    DivisionIs(a, x);
    DivisionIs(b, y);
    Regroup(x, y, q, r);
    DivUnique(a, x * y, q, x * r + a % x);
  }

  lemma DivisionIs(a: nat, d: nat)
    requires d > 0
    ensures a == d * (a / d) + a % d && a % d < d
  {
  }

  lemma Regroup(x: nat, y: nat, q: nat, r: nat)
    ensures x * (y * q + r) == (x * y) * q + x * r
  {
  }

  // ---- products without multiplication ----

  /** `n` times `x`, by repeated addition: the form in which the proofs about runs stay linear. */
  function Times(n: nat, x: nat): nat {
    if n == 0 then 0 else x + Times(n - 1, x)
  }

  lemma {:induction false} TimesIsProduct(n: nat, x: nat)
    ensures Times(n, x) == n * x
    decreases n
  {
    if n > 0 {
      TimesIsProduct(n - 1, x);
      assert n * x == (n - 1) * x + x;
    }
  }

  lemma {:induction false} TimesAdds(n: nat, x: nat, y: nat)
    ensures Times(n, x + y) == Times(n, x) + Times(n, y)
    decreases n
  {
    if n > 0 {
      TimesAdds(n - 1, x, y);
    }
  }

  lemma {:induction false} TimesGrows(n: nat, x: nat, y: nat)
    requires x <= y
    ensures Times(n, x) <= Times(n, y)
    decreases n
  {
    if n > 0 {
      TimesGrows(n - 1, x, y);
    }
  }

  lemma {:induction false} MoreTimesGrows(m: nat, n: nat, x: nat)
    requires m <= n
    ensures Times(m, x) <= Times(n, x)
    decreases n
  {
    if m > 0 {
      MoreTimesGrows(m - 1, n - 1, x);
    }
  }

  /** `a / d`, by repeated subtraction. */
  function Quotient(a: nat, d: nat): nat
    requires d > 0
  {
    if a < d then 0 else 1 + Quotient(a - d, d)
  }

  lemma {:induction false} QuotientIsDivision(a: nat, d: nat)
    requires d > 0
    ensures Quotient(a, d) == a / d
    decreases a
  {
    if a >= d {
      QuotientIsDivision(a - d, d);
      DivisionIs(a - d, d);
      DivUnique(a, d, (a - d) / d + 1, (a - d) % d);
    } else {
      DivUnique(a, d, 0, a);
    }
  }

  lemma {:induction false} TimesOne(n: nat)
    ensures Times(n, 1) == n
    decreases n
  {
    if n > 0 {
      TimesOne(n - 1);
    }
  }

  /** One more than the quotient, times the divisor, exceeds the dividend. */
  lemma {:induction false} QuotientIsGreatest(a: nat, d: nat)
    requires d > 0
    ensures Times(d, Quotient(a, d) + 1) > a
    decreases a
  {
    TimesOne(d);
    if a >= d {
      QuotientIsGreatest(a - d, d);
      TimesAdds(d, Quotient(a - d, d) + 1, 1);
    }
  }

  /** The quotient, times the divisor, does not exceed the dividend. */
  lemma {:induction false} QuotientFits(a: nat, d: nat)
    requires d > 0
    ensures Times(d, Quotient(a, d)) <= a
    decreases a
  {
    if a >= d {
      QuotientFits(a - d, d);
      TimesOne(d);
      TimesAdds(d, Quotient(a - d, d), 1);
    } else {
      TimesZero(d);
    }
  }

  lemma {:induction false} TimesZero(n: nat)
    ensures Times(n, 0) == 0
    decreases n
  {
    if n > 0 {
      TimesZero(n - 1);
    }
  }

  /** `x` is a multiple of `k`, by repeated subtraction. */
  predicate Multiple(x: nat, k: nat)
    requires k > 0
  {
    x == 0 || (x >= k && Multiple(x - k, k))
  }

  lemma {:induction false} MultipleIsMod(x: nat, k: nat)
    requires k > 0
    ensures Multiple(x, k) <==> x % k == 0
    decreases x
  {
    if x >= k {
      MultipleIsMod(x - k, k);
      DivisionIs(x - k, k);
      DivUnique(x, k, (x - k) / k + 1, (x - k) % k);
    } else {
      DivUnique(x, k, 0, x);
    }
  }

  lemma {:induction false} MultipleAdds(x: nat, y: nat, k: nat)
    requires k > 0 && Multiple(x, k) && Multiple(y, k)
    ensures Multiple(x + y, k)
    decreases x
  {
    if x > 0 {
      MultipleAdds(x - k, y, k);
    }
  }

  lemma {:induction false} MultipleSubtracts(x: nat, y: nat, k: nat)
    requires k > 0 && y <= x && Multiple(x, k) && Multiple(y, k)
    ensures Multiple(x - y, k)
    decreases y
  {
    if y > 0 {
      MultipleSubtracts(x - k, y - k, k);
    }
  }

  lemma {:induction false} MultipleOfOne(x: nat)
    ensures Multiple(x, 1)
    decreases x
  {
    if x > 0 {
      MultipleOfOne(x - 1);
    }
  }
}
