/** The hash that maps a thread id to a row of shared memory.  The Rust reader computes it on machine words
    that wrap around, the Python writer on unbounded integers; both must find the same row. */
module TidSlot {
  import opened Bits
  import opened Powers

  const MAX_TIDS: nat := 65536
  const MULTIPLIER: nat := 0x45d9f3b

  /** The inverse of the multiplier modulo `MAX_TIDS`. */
  const INVERSE: nat := 57843

  /** Wrapping multiplication on words of `width` bits. */
  function WrappingMul(a: nat, b: nat, width: nat): nat {
    a * b % Pow2(width)
  }

  /** `tid_slot`, on `usize` words of `width` bits. */
  function RustSlot(tid: nat, width: nat): nat {
    var high := tid / 65536;
    Xor(WrappingMul(Xor(tid, high), MULTIPLIER, width), high) % MAX_TIDS
  }

  /** `_tid_slot`, on Python integers. */
  function PythonSlot(tid: nat): (slot: nat)
    ensures slot < MAX_TIDS
  {
    var high := tid / 65536;
    Xor(Xor(tid, high) * MULTIPLIER, high) % MAX_TIDS
  }

  /** The low 16 bits of the thread id in the block `high` that hashes to `slot`. */
  function SlotInverse(high: nat, slot: nat): nat {
    var h := high % MAX_TIDS;
    Xor(Xor(slot, h) * INVERSE % MAX_TIDS, h)
  }

  // ---- agreement ----

  lemma Pow2Of16()
    ensures Pow2(16) == MAX_TIDS
  {
    assert Pow2(4) == 16;
    assert Pow2(8) == 256;
    assert Pow2(12) == 4096;
  }

  /** Wrapping at 16 bits or more does not change the low 16 bits. */
  lemma WrappingKeepsLowBits(a: nat, width: nat)
    requires width >= 16
    ensures a % Pow2(width) % Pow2(16) == a % Pow2(16)
  {
    LowIsMod(a, width);
    LowIsMod(a % Pow2(width), 16);
    LowIsMod(a, 16);
    LowOfLow(a, width, 16);
  }

  /** On 32-bit and on 64-bit words alike, the reader and the writer use the same row. */
  lemma RustAndPythonAgree(tid: nat, width: nat)
    requires width >= 16
    ensures RustSlot(tid, width) == PythonSlot(tid)
  {
    var high := tid / 65536;
    var product := Xor(tid, high) * MULTIPLIER;
    Pow2Of16();
    WrappingKeepsLowBits(product, width);
    XorMod(product % Pow2(width), high, 16);
    XorMod(product, high, 16);
  }

  // ---- bijection on each block ----

  /** Multiplying by the multiplier and by its inverse gives back the low 16 bits. */
  lemma InverseUndoesMultiplier(x: nat)
    requires x < MAX_TIDS
    ensures x * MULTIPLIER % MAX_TIDS * INVERSE % MAX_TIDS == x
    ensures x * INVERSE % MAX_TIDS * MULTIPLIER % MAX_TIDS == x
  {
    MulModBothWays(x, MULTIPLIER, INVERSE);
    MulModBothWays(x, INVERSE, MULTIPLIER);
  }

  lemma MulModBothWays(x: nat, m: nat, n: nat)
    requires x < MAX_TIDS && m * n % MAX_TIDS == 1
    ensures x * m % MAX_TIDS * n % MAX_TIDS == x
  {
    var q, r := x * m / MAX_TIDS, x * m % MAX_TIDS;
    var k := m * n / MAX_TIDS;
    assert x * m == MAX_TIDS * q + r;
    assert x * (m * n) == x * (MAX_TIDS * k + 1);
    calc {
      r * n;
      (x * m - MAX_TIDS * q) * n;
      x * (m * n) - MAX_TIDS * (q * n);
      MAX_TIDS * (x * k) + x - MAX_TIDS * (q * n);
      MAX_TIDS * (x * k - q * n) + x;
    }
    assert x * k - q * n >= 0;
    DivUnique(r * n, MAX_TIDS, x * k - q * n, x);
  }

  /** The thread ids `65536 * high + low`, for one `high` and all 16-bit `low`. */
  lemma SlotOfBlock(high: nat, low: nat)
    requires low < MAX_TIDS
    ensures var h := high % MAX_TIDS;
            PythonSlot(65536 * high + low) == Xor(Xor(low, h) * MULTIPLIER % MAX_TIDS, h)
  {
    var tid := 65536 * high + low;
    var h := high % MAX_TIDS;
    Pow2Of16();
    assert tid / 65536 == high && tid % MAX_TIDS == low;
    var x := Xor(tid, high);
    XorMod(tid, high, 16);
    XorMod(x * MULTIPLIER, high, 16);
    XorBound(low, h, 16);
    MulModLeft(x, MULTIPLIER);
  }

  lemma MulModLeft(x: nat, m: nat)
    ensures x * m % MAX_TIDS == x % MAX_TIDS * m % MAX_TIDS
  {
    var q, r := x / MAX_TIDS, x % MAX_TIDS;
    var k := r * m / MAX_TIDS;
    assert x * m == (MAX_TIDS * q + r) * m == MAX_TIDS * (q * m) + r * m;
    assert MAX_TIDS * (q * m) + MAX_TIDS * k == MAX_TIDS * (q * m + k);
    DivUnique(x * m, MAX_TIDS, q * m + k, r * m % MAX_TIDS);
  }

  /** On every block of 65536 consecutive thread ids the hash takes each slot exactly once. */
  lemma SlotIsBijectiveOnBlock(high: nat, low: nat, slot: nat)
    requires low < MAX_TIDS && slot < MAX_TIDS
    ensures SlotInverse(high, PythonSlot(65536 * high + low)) == low
    ensures SlotInverse(high, slot) < MAX_TIDS
    ensures PythonSlot(65536 * high + SlotInverse(high, slot)) == slot
  {
    var h := high % MAX_TIDS;
    Pow2Of16();
    XorBound(low, h, 16);
    XorBound(slot, h, 16);

    var x := Xor(low, h);
    SlotOfBlock(high, low);
    XorCancels(x * MULTIPLIER % MAX_TIDS, h);
    InverseUndoesMultiplier(x);
    XorCancels(low, h);

    var y := Xor(slot, h);
    var low' := SlotInverse(high, slot);
    XorBound(y * INVERSE % MAX_TIDS, h, 16);
    SlotOfBlock(high, low');
    XorCancels(y * INVERSE % MAX_TIDS, h);
    InverseUndoesMultiplier(y);
    XorCancels(slot, h);
  }
}
