/** Bitwise exclusive or on naturals of any width. */
module Bits {
  import opened Powers

  /** Bitwise exclusive or of unbounded naturals. */
  function Xor(a: nat, b: nat): nat
    decreases a + b
  {
    if a == 0 && b == 0 then 0 else (a + b) % 2 + 2 * Xor(a / 2, b / 2)
  }

  /** Bit `k` of `a`. */
  function Bit(a: nat, k: nat): nat {
    if k == 0 then a % 2 else Bit(a / 2, k - 1)
  }

  /** The low `n` bits of `a`. */
  function Low(a: nat, n: nat): nat {
    if n == 0 then 0 else a % 2 + 2 * Low(a / 2, n - 1)
  }

  lemma Halve(a: nat, p: nat)
    requires p > 0
    ensures a / (2 * p) == a / 2 / p
    ensures a % (2 * p) == a % 2 + 2 * (a / 2 % p)
  {
    var q := a / 2 / p;
    var r := a / 2 % p;
    assert (2 * p) * q == 2 * (p * q);
    DivUnique(a, 2 * p, q, 2 * r + a % 2);
  }

  lemma LowAndHigh(low: nat, high: nat)
    requires low < 2
    ensures (low + 2 * high) % 2 == low && (low + 2 * high) / 2 == high
  {
  }

  lemma XorStep(a: nat, b: nat)
    ensures Xor(a, b) % 2 == (a + b) % 2
    ensures Xor(a, b) / 2 == Xor(a / 2, b / 2)
  {
    if a != 0 || b != 0 {
      var low, high := (a + b) % 2, Xor(a / 2, b / 2);
      assert Xor(a, b) == low + 2 * high;
      LowAndHigh(low, high);
    }
  }

  lemma SameHalves(a: nat, b: nat)
    requires a % 2 == b % 2 && a / 2 == b / 2
    ensures a == b
  {
  }

  lemma SumParity(a: nat, b: nat)
    ensures (a + b) % 2 == (a % 2 + b % 2) % 2
  {
  }

  /** `Xor` is the bitwise operation: bit `k` is set exactly when just one of the operands has it. */
  lemma {:induction false} XorBits(a: nat, b: nat, k: nat)
    ensures Bit(Xor(a, b), k) == (Bit(a, k) + Bit(b, k)) % 2
    decreases k
  {
    XorStep(a, b);
    if k == 0 {
      SumParity(a, b);
    } else {
      XorBits(a / 2, b / 2, k - 1);
    }
  }

  lemma {:induction false} XorBound(a: nat, b: nat, n: nat)
    requires a < Pow2(n) && b < Pow2(n)
    ensures Xor(a, b) < Pow2(n)
    decreases n
  {
    if n > 0 {
      XorBound(a / 2, b / 2, n - 1);
    }
  }

  lemma CancelParity(a: nat, b: nat, x: nat)
    requires x % 2 == (a + b) % 2
    ensures (x + b) % 2 == a % 2
  {
  }

  lemma {:induction false} XorCancels(a: nat, b: nat)
    ensures Xor(Xor(a, b), b) == a
    decreases a + b
  {
    if a != 0 || b != 0 {
      var x := Xor(a, b);
      XorStep(a, b);
      XorStep(x, b);
      XorCancels(a / 2, b / 2);
      CancelParity(a, b, x);
      SameHalves(Xor(x, b), a);
    }
  }

  lemma {:induction false} LowIsMod(a: nat, n: nat)
    ensures Low(a, n) == a % Pow2(n)
    decreases n
  {
    if n > 0 {
      Halve(a, Pow2(n - 1));
      LowIsMod(a / 2, n - 1);
    }
  }

  lemma {:induction false} LowOfLow(a: nat, wide: nat, n: nat)
    requires n <= wide
    ensures Low(Low(a, wide), n) == Low(a, n)
    decreases n
  {
    if n > 0 {
      LowAndHigh(a % 2, Low(a / 2, wide - 1));
      LowOfLow(a / 2, wide - 1, n - 1);
    }
  }

  lemma XorOfParts(low1: nat, high1: nat, low2: nat, high2: nat)
    requires low1 < 2 && low2 < 2
    ensures Xor(low1 + 2 * high1, low2 + 2 * high2) == (low1 + low2) % 2 + 2 * Xor(high1, high2)
  {
    var a, b := low1 + 2 * high1, low2 + 2 * high2;
    LowAndHigh(low1, high1);
    LowAndHigh(low2, high2);
    XorStep(a, b);
    SumParity(a, b);
  }

  lemma {:induction false} XorLow(a: nat, b: nat, n: nat)
    ensures Low(Xor(a, b), n) == Xor(Low(a, n), Low(b, n))
    decreases n
  {
    if n > 0 {
      XorLow(a / 2, b / 2, n - 1);
      XorLowStep(a, b, n, Low(a / 2, n - 1), Low(b / 2, n - 1));
    }
  }

  lemma XorLowStep(a: nat, b: nat, n: nat, low1: nat, low2: nat)
    requires n > 0 && Low(Xor(a / 2, b / 2), n - 1) == Xor(low1, low2)
    ensures Low(Xor(a, b), n) == Xor(a % 2 + 2 * low1, b % 2 + 2 * low2)
  {
    XorStep(a, b);
    SumParity(a, b);
    XorOfParts(a % 2, low1, b % 2, low2);
  }

  /** The low `n` bits of an exclusive or depend only on the low `n` bits of the operands. */
  lemma XorMod(a: nat, b: nat, n: nat)
    ensures Xor(a, b) % Pow2(n) == Xor(a % Pow2(n), b % Pow2(n))
  {
    LowIsMod(a, n);
    LowIsMod(b, n);
    LowIsMod(Xor(a, b), n);
    XorLow(a, b, n);
  }

  lemma ParityOfSums(a: nat, b: nat, c: nat, x: nat, y: nat)
    requires x % 2 == (a + b) % 2 && y % 2 == (b + c) % 2
    ensures (x + c) % 2 == (a + y) % 2
  {
  }

  lemma {:induction false} XorAssociates(a: nat, b: nat, c: nat)
    ensures Xor(Xor(a, b), c) == Xor(a, Xor(b, c))
    decreases a + b + c
  {
    if a + b + c > 0 {
      var x, y := Xor(a, b), Xor(b, c);
      XorStep(a, b);
      XorStep(b, c);
      XorStep(x, c);
      XorStep(a, y);
      XorAssociates(a / 2, b / 2, c / 2);
      ParityOfSums(a, b, c, x, y);
      SameHalves(Xor(x, c), Xor(a, y));
    }
  }

  lemma {:induction false} XorZero(a: nat)
    ensures Xor(a, 0) == a
    decreases a
  {
    if a > 0 {
      XorZero(a / 2);
    }
  }

  lemma {:induction false} XorSelf(a: nat)
    ensures Xor(a, a) == 0
    decreases a
  {
    if a > 0 {
      XorSelf(a / 2);
    }
  }

  lemma {:induction false} XorCommutes(a: nat, b: nat)
    ensures Xor(a, b) == Xor(b, a)
    decreases a + b
  {
    if a + b > 0 {
      XorCommutes(a / 2, b / 2);
    }
  }
}
