/** Matching addresses against a CIDR prefix. */
module Cidr {
  import opened Powers
  import opened Prelude

  const ADDRESS_BYTES: nat := 16

  /** The bytes before the prefix ends are compared whole, the byte it ends in under a mask. */
  predicate PrefixMatch(candidate: seq<Octet>, network: seq<Octet>, prefixLen: nat)
    requires |candidate| == |network| == ADDRESS_BYTES && prefixLen <= 8 * ADDRESS_BYTES
  {
    if prefixLen == 0 then true
    else
      var fullBytes := prefixLen / 8;
      var partialBits := prefixLen % 8;
      if fullBytes > 0 && candidate[..fullBytes] != network[..fullBytes] then false
      else if partialBits == 0 then true
      else
        var mask := Mask(8 - partialBits);
        BitAnd(candidate[fullBytes], mask) == BitAnd(network[fullBytes], mask)
  }

  /** `0xFF << zeros` in eight bits. */
  function Mask(zeros: nat): nat {
    0xFF * Pow2(zeros) % 256
  }

  /** Bitwise conjunction. */
  function BitAnd(a: nat, b: nat): nat {
    if a == 0 then 0
    else 2 * BitAnd(a / 2, b / 2) + if a % 2 == 1 && b % 2 == 1 then 1 else 0
  }

  /** The integer an address denotes in network order. */
  function BigEndian(bs: seq<Octet>): nat {
    if bs == [] then 0 else BigEndian(bs[..|bs| - 1]) * 256 + bs[|bs| - 1]
  }

  /** The first byte counts most: it is worth 256 to the power of how many follow. */
  lemma {:induction false} BigEndianFirst(bs: seq<Octet>)
    requires bs != []
    ensures BigEndian(bs) == bs[0] * Pow2(8 * (|bs| - 1)) + BigEndian(bs[1..])
    decreases |bs|
  {
    var n := |bs| - 1;
    if n == 0 {
      assert bs[..0] == [] && BigEndian([]) == 0;
    } else {
      var front := bs[..n];
      BigEndianFirst(front);
      assert front[1..] == bs[1..][..n - 1];
      PowerOfByte(8 * (n - 1));
      MulThrough(bs[0], Pow2(8 * (n - 1)));
    }
  }

  lemma PowerOfByte(n: nat)
    ensures Pow2(8 + n) == 256 * Pow2(n)
  {
    assert Pow2(2 + n) == 2 * Pow2(1 + n) == 4 * Pow2(n);
    assert Pow2(4 + n) == 2 * Pow2(3 + n) == 4 * Pow2(2 + n);
    assert Pow2(6 + n) == 2 * Pow2(5 + n) == 4 * Pow2(4 + n);
    assert Pow2(8 + n) == 2 * Pow2(7 + n) == 4 * Pow2(6 + n);
  }

  lemma MulThrough(x: nat, p: nat)
    ensures x * p * 256 == x * (256 * p)
  {
  }

  lemma {:induction false} BigEndianIsInjective(a: seq<Octet>, b: seq<Octet>)
    requires |a| == |b| && BigEndian(a) == BigEndian(b)
    ensures a == b
    decreases |a|
  {
    if a != [] {
      var n := |a| - 1;
      assert a[n] == b[n] && BigEndian(a[..n]) == BigEndian(b[..n]);
      BigEndianIsInjective(a[..n], b[..n]);
      assert a == a[..n] + [a[n]] && b == b[..n] + [b[n]];
    }
  }

  /** `x` shifted right by `j` bits. */
  function ShiftRight(x: nat, j: nat): nat {
    if j == 0 then x else ShiftRight(x / 2, j - 1)
  }

  lemma {:induction false} ShiftRightDivides(x: nat, j: nat)
    ensures ShiftRight(x, j) == x / Pow2(j)
    decreases j
  {
    if j > 0 {
      ShiftRightDivides(x / 2, j - 1);
      DivTwice(x, 2, Pow2(j - 1));
    }
  }

  lemma {:induction false} ShiftTwice(x: nat, i: nat, j: nat)
    ensures ShiftRight(x, i + j) == ShiftRight(ShiftRight(x, i), j)
    decreases i
  {
    if i > 0 {
      ShiftTwice(x / 2, i - 1, j);
    }
  }

  /** Shifting by eight bits for every byte dropped keeps the leading bytes. */
  lemma {:induction false} DropBytes(bs: seq<Octet>, m: nat)
    requires m <= |bs|
    ensures ShiftRight(BigEndian(bs), 8 * m) == BigEndian(bs[..|bs| - m])
    decreases m
  {
    if m == 0 {
      assert bs[..|bs|] == bs;
    } else {
      var front := bs[..|bs| - 1];
      DropLowByte(BigEndian(front), bs[|bs| - 1]);
      ShiftTwice(BigEndian(bs), 8, 8 * (m - 1));
      DropBytes(front, m - 1);
      assert front[..|front| - (m - 1)] == bs[..|bs| - m];
    }
  }

  lemma DropLowByte(high: nat, low: nat)
    requires low < 256
    ensures ShiftRight(high * 256 + low, 8) == high
  {
    EightBits();
    ByteUp(high);
    Shifted(high, low, 8, 8);
  }

  lemma ByteUp(high: nat)
    ensures ShiftLeft(high, 8) == high * 256
  {
    assert ShiftLeft(high, 1) == high * 2;
    assert ShiftLeft(high, 3) == high * 8;
    assert ShiftLeft(high, 5) == high * 32;
    assert ShiftLeft(high, 7) == high * 128;
  }

  /** `x` shifted left by `j` bits. */
  function ShiftLeft(x: nat, j: nat): nat {
    if j == 0 then x else 2 * ShiftLeft(x, j - 1)
  }

  lemma HalfOfSum(half: nat, low: nat)
    ensures (2 * half + low) / 2 == half + low / 2
  {
  }

  /** Shifting a number whose low `width` bits are `low` shifts those bits only. */
  lemma {:induction false} Shifted(high: nat, low: nat, width: nat, j: nat)
    requires low < Pow2(width) && j <= width
    ensures ShiftRight(low, j) < Pow2(width - j)
    ensures ShiftRight(ShiftLeft(high, width) + low, j) == ShiftLeft(high, width - j) + ShiftRight(low, j)
    decreases j
  {
    if j > 0 {
      HalfOfSum(ShiftLeft(high, width - 1), low);
      Shifted(high, low / 2, width - 1, j - 1);
    }
  }

  lemma MaskIs(zeros: nat)
    requires zeros < 8
    ensures Mask(zeros) == Pow2(8) - Pow2(zeros)
  {
    assert Pow2(2) == 4 && Pow2(4) == 16 && Pow2(6) == 64 && Pow2(8) == 256;
  }

  lemma AndOdd(x: nat, mask: nat)
    ensures BitAnd(x, 2 * mask + 1) == 2 * BitAnd(x / 2, mask) + x % 2
  {
    assert (2 * mask + 1) / 2 == mask && (2 * mask + 1) % 2 == 1;
  }

  lemma {:induction false} AndOnes(x: nat, width: nat)
    requires x < Pow2(width)
    ensures BitAnd(x, Pow2(width) - 1) == x
    decreases width
  {
    if width > 0 {
      AndOdd(x, Pow2(width - 1) - 1);
      AndOnes(x / 2, width - 1);
    }
  }

  lemma {:induction false} PowGrows(j: nat, width: nat)
    requires j <= width
    ensures Pow2(j) <= Pow2(width)
    decreases width
  {
    if j < width {
      PowGrows(j, width - 1);
    }
  }

  lemma {:induction false} ShiftLeftIsInjective(x: nat, y: nat, j: nat)
    requires ShiftLeft(x, j) == ShiftLeft(y, j)
    ensures x == y
    decreases j
  {
    if j > 0 {
      ShiftLeftIsInjective(x, y, j - 1);
    }
  }

  /** A mask of the bits from `j` up keeps exactly those bits. */
  lemma {:induction false} AndHighOnes(x: nat, width: nat, j: nat)
    requires x < Pow2(width) && j <= width
    ensures Pow2(j) <= Pow2(width) && BitAnd(x, Pow2(width) - Pow2(j)) == ShiftLeft(ShiftRight(x, j), j)
    decreases width
  {
    PowGrows(j, width);
    if j == 0 {
      AndOnes(x, width);
    } else {
      var mask := Pow2(width - 1) - Pow2(j - 1);
      AndHighOnes(x / 2, width - 1, j - 1);
      assert Pow2(width) - Pow2(j) == 2 * mask;
      AndEven(x, mask);
    }
  }

  lemma AndEven(x: nat, mask: nat)
    ensures BitAnd(x, 2 * mask) == 2 * BitAnd(x / 2, mask)
  {
    assert 2 * mask / 2 == mask && 2 * mask % 2 == 0;
  }

  /** Comparing under the mask compares the bits the mask keeps. */
  lemma MaskComparesHighBits(x: Octet, y: Octet, j: nat)
    requires j < 8
    ensures BitAnd(x, Mask(j)) == BitAnd(y, Mask(j)) <==> ShiftRight(x, j) == ShiftRight(y, j)
  {
    MaskIs(j);
    EightBits();
    AndHighOnes(x, 8, j);
    AndHighOnes(y, 8, j);
    if BitAnd(x, Mask(j)) == BitAnd(y, Mask(j)) {
      ShiftLeftIsInjective(ShiftRight(x, j), ShiftRight(y, j), j);
    }
  }

  lemma EightBits()
    ensures Pow2(8) == 256
  {
    assert Pow2(4) == 16;
  }

  lemma SameHighAndLow(h1: nat, l1: nat, h2: nat, l2: nat, width: nat)
    requires l1 < Pow2(width) && l2 < Pow2(width)
    ensures ShiftLeft(h1, width) + l1 == ShiftLeft(h2, width) + l2 <==> h1 == h2 && l1 == l2
  {
    Shifted(h1, l1, width, width);
    Shifted(h2, l2, width, width);
  }

  lemma SameBytes(a: seq<Octet>, b: seq<Octet>)
    requires |a| == |b|
    ensures a == b <==> BigEndian(a) == BigEndian(b)
  {
    if BigEndian(a) == BigEndian(b) {
      BigEndianIsInjective(a, b);
    }
  }

  /** An address shifted to its first `n` bytes and the high `8 - j` bits of the next. */
  lemma LeadingBits(bs: seq<Octet>, n: nat, j: nat)
    requires |bs| == ADDRESS_BYTES && n < ADDRESS_BYTES && j <= 8
    ensures ShiftRight(bs[n], j) < Pow2(8 - j)
    ensures ShiftRight(BigEndian(bs), 8 * (15 - n) + j)
         == ShiftLeft(BigEndian(bs[..n]), 8 - j) + ShiftRight(bs[n], j)
  {
    var head := bs[..n + 1];
    ShiftTwice(BigEndian(bs), 8 * (15 - n), j);
    DropBytes(bs, 15 - n);
    assert bs[..|bs| - (15 - n)] == head && head[..n] == bs[..n];
    EightBits();
    ByteUp(BigEndian(bs[..n]));
    Shifted(BigEndian(bs[..n]), bs[n], 8, j);
  }

  lemma SameLeadingBits(a: seq<Octet>, b: seq<Octet>, n: nat, j: nat)
    requires |a| == |b| == ADDRESS_BYTES && n < ADDRESS_BYTES && j < 8
    ensures a[..n] == b[..n] && BitAnd(a[n], Mask(j)) == BitAnd(b[n], Mask(j))
       <==> ShiftRight(BigEndian(a), 8 * (15 - n) + j) == ShiftRight(BigEndian(b), 8 * (15 - n) + j)
  {
    LeadingBits(a, n, j);
    LeadingBits(b, n, j);
    SameBytes(a[..n], b[..n]);
    MaskComparesHighBits(a[n], b[n], j);
    SameHighAndLow(BigEndian(a[..n]), ShiftRight(a[n], j),
                   BigEndian(b[..n]), ShiftRight(b[n], j), 8 - j);
  }

  lemma SameLeadingBytes(a: seq<Octet>, b: seq<Octet>, n: nat)
    requires |a| == |b| == ADDRESS_BYTES && n <= ADDRESS_BYTES
    ensures a[..n] == b[..n]
       <==> ShiftRight(BigEndian(a), 8 * (16 - n)) == ShiftRight(BigEndian(b), 8 * (16 - n))
  {
    DropBytes(a, 16 - n);
    DropBytes(b, 16 - n);
    SameBytes(a[..n], b[..n]);
  }

  /** The byte-and-mask comparison is agreement of the leading `prefixLen` bits of the two addresses. */
  lemma PrefixMatchIsNumericPrefix(candidate: seq<Octet>, network: seq<Octet>, prefixLen: nat)
    requires |candidate| == |network| == ADDRESS_BYTES && prefixLen <= 8 * ADDRESS_BYTES
    ensures PrefixMatch(candidate, network, prefixLen)
       <==> BigEndian(candidate) / Pow2(128 - prefixLen) == BigEndian(network) / Pow2(128 - prefixLen)
  {
    ShiftRightDivides(BigEndian(candidate), 128 - prefixLen);
    ShiftRightDivides(BigEndian(network), 128 - prefixLen);
    PrefixMatchShifts(candidate, network, prefixLen);
  }

  lemma PrefixMatchShifts(candidate: seq<Octet>, network: seq<Octet>, prefixLen: nat)
    requires |candidate| == |network| == ADDRESS_BYTES && prefixLen <= 8 * ADDRESS_BYTES
    ensures PrefixMatch(candidate, network, prefixLen)
       <==> ShiftRight(BigEndian(candidate), 128 - prefixLen) == ShiftRight(BigEndian(network), 128 - prefixLen)
  {
    var n, k := prefixLen / 8, prefixLen % 8;
    assert candidate[..0] == network[..0] == [];
    if k == 0 {
      assert 128 - prefixLen == 8 * (16 - n);
      SameLeadingBytes(candidate, network, n);
    } else {
      assert 128 - prefixLen == 8 * (15 - n) + (8 - k);
      SameLeadingBits(candidate, network, n, 8 - k);
    }
  }

  /** An address inside a network is inside every larger network around it. */
  lemma LongerPrefixImpliesShorter(candidate: seq<Octet>, network: seq<Octet>, long: nat, short: nat)
    requires |candidate| == |network| == ADDRESS_BYTES && short <= long <= 8 * ADDRESS_BYTES
    requires PrefixMatch(candidate, network, long)
    ensures PrefixMatch(candidate, network, short)
  {
    PrefixMatchShifts(candidate, network, long);
    PrefixMatchShifts(candidate, network, short);
    ShiftTwice(BigEndian(candidate), 128 - long, long - short);
    ShiftTwice(BigEndian(network), 128 - long, long - short);
  }
}
