/** Payload mutations: what each does to a buffer, when it is refused, and how it is undone. */
module PayloadTransform {
  import opened Bits
  import opened Layers
  import opened Powers
  import opened Prelude

  function Lcg64(seed: U64): U64 {
    (seed * 6364136223846793005 + 1) % 0x1_0000_0000_0000_0000
  }

  function ByteXor(a: Octet, b: Octet): Octet {
    XorOfBytes(a, b);
    Xor(a, b)
  }

  lemma XorOfBytes(a: Octet, b: Octet)
    ensures Xor(a, b) < 256
  {
    assert Pow2(4) == 16 && Pow2(8) == 256;
    XorBound(a, b, 8);
  }

  // ---- what a mutation means ----

  function XorAll(buffer: seq<Octet>, mask: seq<Octet>): (out: seq<Octet>)
    requires |mask| == |buffer|
    ensures |out| == |buffer|
  {
    seq(|buffer|, i requires 0 <= i < |buffer| => ByteXor(buffer[i], mask[i]))
  }

  function Zeros(n: nat): seq<Octet> {
    seq(n, _ => 0)
  }

  /** `mask` after `rounds` more draws: each picks a place and a byte to add there. */
  function Draw(mask: seq<Octet>, state: U64, rounds: nat): (out: seq<Octet>)
    requires mask != []
    ensures |out| == |mask|
    decreases rounds
  {
    if rounds == 0 then mask
    else
      var place := Lcg64(state);
      var value := Lcg64(place);
      Draw(Drawn(mask, place, value), value, rounds - 1)
  }

  function Drawn(mask: seq<Octet>, place: U64, value: U64): (out: seq<Octet>)
    requires mask != []
    ensures |out| == |mask|
  {
    var idx := place % |mask|;
    mask[idx := ByteXor(mask[idx], value % 256)]
  }

  /** The bytes corruption adds to a buffer of `n` bytes; they do not depend on its contents. */
  function CorruptionMask(n: nat, count: U64, seed: U64): (mask: seq<Octet>)
    requires n > 0
    ensures |mask| == n
  {
    Draw(Zeros(n), Lcg64(seed), count)
  }

  predicate OccursAt(buffer: seq<Octet>, needle: seq<Octet>, i: nat) {
    i + |needle| <= |buffer| && buffer[i..i + |needle|] == needle
  }

  function Leftmost(buffer: seq<Octet>, needle: seq<Octet>, from: nat): (found: Option<nat>)
    ensures found.Some? ==> from <= found.value && OccursAt(buffer, needle, found.value)
    ensures found.Some? ==> forall j | from <= j < found.value :: !OccursAt(buffer, needle, j)
    ensures found.None? ==> forall j | from <= j <= |buffer| :: !OccursAt(buffer, needle, j)
    decreases |buffer| + 1 - from
  {
    if from > |buffer| then None
    else if OccursAt(buffer, needle, from) then Some(from)
    else Leftmost(buffer, needle, from + 1)
  }

  function Take(data: seq<Octet>, len: U64): seq<Octet> {
    data[..Min(len, |data|)]
  }

  function Swapped(buffer: seq<Octet>, i: nat, j: nat): (out: seq<Octet>)
    requires i < |buffer| && j < |buffer|
    ensures |out| == |buffer|
  {
    buffer[i := buffer[j]][j := buffer[i]]
  }

  /** The mutated buffer, before the tests every mutation ends with. */
  function Mutated(buffer: seq<Octet>, mutation: Mutation): Option<seq<Octet>> {
    match mutation
    case Truncate(size) =>
      if size < |buffer| then Some(buffer[..size]) else None
    case CorruptBytes(count, seed) =>
      if buffer == [] then None else Some(XorAll(buffer, CorruptionMask(|buffer|, count, seed)))
    case InjectBytes(position, data, len) =>
      if position <= |buffer| then Some(buffer[..position] + Take(data, len) + buffer[position..]) else None
    case ReplacePattern(find, findLen, replace, replaceLen) =>
      var needle := Take(find, findLen);
      var at := Leftmost(buffer, needle, 0);
      if needle == [] || at.None? then None
      else Some(buffer[..at.value] + Take(replace, replaceLen) + buffer[at.value + |needle|..])
    case CorruptEncoding =>
      if buffer == [] then None else Some(buffer[0 := 0xFF])
    case SwapBytes(i, j) =>
      if i < |buffer| && j < |buffer| then Some(Swapped(buffer, i, j)) else None
  }

  /** A mutation takes effect only if its result fits and differs from the buffer. */
  function Effect(buffer: seq<Octet>, mutation: Mutation, maxBuffer: nat): Option<seq<Octet>> {
    var out := Mutated(buffer, mutation);
    if out.Some? && |out.value| <= maxBuffer && out.value != buffer then out else None
  }

  // ---- the operation ----

  lemma XorAllZeros(buffer: seq<Octet>)
    ensures XorAll(buffer, Zeros(|buffer|)) == buffer
  {
    forall i | 0 <= i < |buffer| ensures ByteXor(buffer[i], 0) == buffer[i] {
      XorZero(buffer[i]);
    }
  }

  /** Adding a byte to a corrupted buffer is corrupting with the byte added to the mask. */
  lemma XorAllDrawn(buffer: seq<Octet>, mask: seq<Octet>, place: U64, value: U64)
    requires buffer != [] && |mask| == |buffer|
    ensures Drawn(XorAll(buffer, mask), place, value) == XorAll(buffer, Drawn(mask, place, value))
  {
    var idx := place % |mask|;
    XorAssociates(buffer[idx], mask[idx], value % 256);
  }

  method Corrupt(buffer: seq<Octet>, count: U64, seed: U64) returns (out: seq<Octet>)
    requires buffer != []
    ensures out == XorAll(buffer, CorruptionMask(|buffer|, count, seed))
  {
    out := buffer;
    var state: U64 := Lcg64(seed);
    ghost var mask := Zeros(|buffer|);
    XorAllZeros(buffer);
    for round := 0 to count
      invariant |out| == |mask| == |buffer| && out == XorAll(buffer, mask)
      invariant CorruptionMask(|buffer|, count, seed) == Draw(mask, state, count - round)
    {
      ghost var place := Lcg64(state);
      XorAllDrawn(buffer, mask, place, Lcg64(place));
      mask := Drawn(mask, place, Lcg64(place));
      state := Lcg64(state);
      var idx := state % |out|;
      state := Lcg64(state);
      out := out[idx := ByteXor(out[idx], state % 256)];
    }
  }

  method FindPattern(buffer: seq<Octet>, needle: seq<Octet>) returns (at: Option<nat>)
    requires needle != []
    ensures at == Leftmost(buffer, needle, 0)
  {
    var i := 0;
    while i + |needle| <= |buffer|
      invariant i <= |buffer| + 1 && Leftmost(buffer, needle, 0) == Leftmost(buffer, needle, i)
    {
      if buffer[i..i + |needle|] == needle {
        return Some(i);
      }
      i := i + 1;
    }
    return None;
  }

  method ApplyMutation(buffer: seq<Octet>, mutation: Mutation, maxBuffer: nat) returns (result: Option<seq<Octet>>)
    ensures result == Effect(buffer, mutation, maxBuffer)
  {
    var out := buffer;
    match mutation {
      case Truncate(size) =>
        if size >= |out| {
          return None;
        }
        out := out[..size];
      case CorruptBytes(count, seed) =>
        if out == [] {
          return None;
        }
        if count == 0 {
          XorAllZeros(buffer);
          return None;
        }
        out := Corrupt(buffer, count, seed);
      case InjectBytes(position, data, len) =>
        var n := Min(len, |data|);
        if position > |out| {
          return None;
        }
        if n == 0 {
          assert out[..position] + data[..n] + out[position..] == out;
          return None;
        }
        if |out| + n > maxBuffer {
          return None;
        }
        out := out[..position] + data[..n] + out[position..];
      case ReplacePattern(find, findLen, replace, replaceLen) =>
        var n, m := Min(findLen, |find|), Min(replaceLen, |replace|);
        if n == 0 {
          return None;
        }
        var at := FindPattern(out, find[..n]);
        if at.None? {
          return None;
        }
        var next := out[..at.value] + replace[..m] + out[at.value + n..];
        if |next| > maxBuffer {
          return None;
        }
        out := next;
      case CorruptEncoding =>
        if out == [] {
          return None;
        }
        out := out[0 := 0xFF];
      case SwapBytes(i, j) =>
        if i >= |out| || j >= |out| || i == j {
          return None;
        }
        out := out[i := buffer[j]][j := buffer[i]];
    }
    if |out| > maxBuffer {
      return None;
    }
    if out == buffer {
      return None;
    }
    return Some(out);
  }

  // ---- undoing ----

  lemma XorAllCancels(buffer: seq<Octet>, mask: seq<Octet>)
    requires |mask| == |buffer|
    ensures XorAll(XorAll(buffer, mask), mask) == buffer
  {
    forall i | 0 <= i < |buffer| ensures ByteXor(ByteXor(buffer[i], mask[i]), mask[i]) == buffer[i] {
      XorCancels(buffer[i], mask[i]);
    }
  }

  /** Corrupting and swapping undo themselves: whenever one takes effect, repeating it restores the buffer. */
  lemma RepeatingRestores(buffer: seq<Octet>, mutation: Mutation, maxBuffer: nat)
    requires mutation.CorruptBytes? || mutation.SwapBytes?
    ensures var out := Effect(buffer, mutation, maxBuffer);
      out.Some? ==> Effect(out.value, mutation, maxBuffer) == Some(buffer)
  {
    var out := Effect(buffer, mutation, maxBuffer);
    if out.Some? {
      if mutation.CorruptBytes? {
        XorAllCancels(buffer, CorruptionMask(|buffer|, mutation.count, mutation.seed));
      } else {
        assert Swapped(out.value, mutation.pos1, mutation.pos2) == buffer;
      }
    }
  }

  /** Cutting the injected span out restores the buffer. */
  lemma CutUndoesInject(buffer: seq<Octet>, position: U64, data: seq<Octet>, len: U64, maxBuffer: nat, out: seq<Octet>)
    requires Effect(buffer, InjectBytes(position, data, len), maxBuffer) == Some(out)
    ensures var n := |Take(data, len)|;
      && position + n <= |out|
      && out[position..position + n] == Take(data, len)
      && out[..position] + out[position + n..] == buffer
  {
    var n := |Take(data, len)|;
    assert out[..position] == buffer[..position];
    assert out[position + n..] == buffer[position..];
    assert buffer[..position] + buffer[position..] == buffer;
  }

  /** Replacing changes the leftmost occurrence and nothing around it; putting the pattern back restores
      the buffer. */
  lemma ReplaceChangesLeftmost(buffer: seq<Octet>, find: seq<Octet>, findLen: U64,
      replace: seq<Octet>, replaceLen: U64, maxBuffer: nat, out: seq<Octet>)
    returns (at: nat)
    requires Effect(buffer, ReplacePattern(find, findLen, replace, replaceLen), maxBuffer) == Some(out)
    ensures var needle, text := Take(find, findLen), Take(replace, replaceLen);
      && OccursAt(buffer, needle, at) && (forall j | 0 <= j < at :: !OccursAt(buffer, needle, j))
      && OccursAt(out, text, at)
      && out[..at] + needle + out[at + |text|..] == buffer
  {
    var needle, text := Take(find, findLen), Take(replace, replaceLen);
    at := Leftmost(buffer, needle, 0).value;
    assert out[..at] == buffer[..at];
    assert out[at..at + |text|] == text;
    assert out[at + |text|..] == buffer[at + |needle|..];
    assert buffer == buffer[..at] + buffer[at..at + |needle|] + buffer[at + |needle|..];
  }

  /** Each mutation, place by place: truncation keeps the front, a broken encoding spoils the first byte only,
      and a swap exchanges two places only. */
  lemma WhatMutationsKeep(buffer: seq<Octet>, mutation: Mutation, maxBuffer: nat, out: seq<Octet>)
    requires Effect(buffer, mutation, maxBuffer) == Some(out)
    ensures |out| <= maxBuffer && out != buffer
    ensures mutation.Truncate? ==> out < buffer && |out| == mutation.size
    ensures mutation.CorruptEncoding? ==> |out| == |buffer| && out[0] == 0xFF && out[1..] == buffer[1..]
    ensures mutation.CorruptBytes? ==> |out| == |buffer|
    ensures mutation.InjectBytes? ==> |out| == |buffer| + Min(mutation.len, |mutation.data|)
    ensures mutation.SwapBytes? ==>
      && mutation.pos1 < |buffer| && mutation.pos2 < |buffer| && |out| == |buffer|
      && out[mutation.pos1] == buffer[mutation.pos2] && out[mutation.pos2] == buffer[mutation.pos1]
      && forall i | 0 <= i < |buffer| && i != mutation.pos1 && i != mutation.pos2 :: out[i] == buffer[i]
  {
  }

  // ---- the generator behind corruption ----

  /** The generator of linear congruences loses nothing: every state tells the seed it came from. */
  lemma SeedIsRecovered(seed: U64)
    ensures (Lcg64(seed) + 0xFFFF_FFFF_FFFF_FFFF) * 13877824140714322085 % 0x1_0000_0000_0000_0000 == seed
  {
    var w, m, n := 0x1_0000_0000_0000_0000, 6364136223846793005, 13877824140714322085;
    var k := (seed * m + 1) / w;
    assert Lcg64(seed) + 0xFFFF_FFFF_FFFF_FFFF == seed * m + w * (1 - k);
    var q := m * n / w;
    assert m * n == q * w + 1;
    assert (seed * m + w * (1 - k)) * n == seed + w * (seed * q + (1 - k) * n);
    WholeWords(seed, w, seed * q + (1 - k) * n);
  }

  lemma WholeWords(seed: U64, w: int, x: int)
    requires w == 0x1_0000_0000_0000_0000
    ensures (seed + w * x) % w == seed
  {
  }

  // ---- when a mutation takes effect ----

  predicate Applicable(buffer: seq<Octet>, mutation: Mutation, maxBuffer: nat) {
    match mutation
    case Truncate(size) => size < |buffer| && size <= maxBuffer
    case CorruptBytes(count, seed) =>
      buffer != [] && |buffer| <= maxBuffer && CorruptionMask(|buffer|, count, seed) != Zeros(|buffer|)
    case InjectBytes(position, data, len) =>
      position <= |buffer| && Take(data, len) != [] && |buffer| + |Take(data, len)| <= maxBuffer
    case ReplacePattern(find, findLen, replace, replaceLen) =>
      var needle, text := Take(find, findLen), Take(replace, replaceLen);
      && needle != [] && text != needle && |buffer| - |needle| + |text| <= maxBuffer
      && exists i :: 0 <= i <= |buffer| && OccursAt(buffer, needle, i)
    case CorruptEncoding => buffer != [] && buffer[0] != 0xFF && |buffer| <= maxBuffer
    case SwapBytes(i, j) => i < |buffer| && j < |buffer| && buffer[i] != buffer[j] && |buffer| <= maxBuffer
  }

  lemma ZeroMask(buffer: seq<Octet>, mask: seq<Octet>)
    requires |mask| == |buffer|
    ensures XorAll(buffer, mask) == buffer <==> mask == Zeros(|buffer|)
  {
    XorAllZeros(buffer);
    if XorAll(buffer, mask) == buffer {
      forall i | 0 <= i < |mask| ensures mask[i] == 0 {
        assert XorAll(buffer, mask)[i] == buffer[i];
        XorAssociates(buffer[i], buffer[i], mask[i]);
        XorSelf(buffer[i]);
        XorCommutes(0, mask[i]);
        XorZero(mask[i]);
      }
    }
  }

  lemma ReplacementDiffers(before: seq<Octet>, a: seq<Octet>, b: seq<Octet>, rest: seq<Octet>)
    ensures before + a + rest == before + b + rest <==> a == b
  {
    var x, y := before + a + rest, before + b + rest;
    if x == y {
      assert |x| == |y|;
      assert x[|before|..|before| + |a|] == a;
      assert y[|before|..|before| + |b|] == b;
    }
  }

  /** A mutation takes effect exactly when its arguments fit the buffer, the result fits the limit, and the
      bytes it would put in differ from those it would replace. */
  lemma EffectIffApplicable(buffer: seq<Octet>, mutation: Mutation, maxBuffer: nat)
    ensures Effect(buffer, mutation, maxBuffer).Some? <==> Applicable(buffer, mutation, maxBuffer)
  {
    match mutation
    case CorruptBytes(count, seed) =>
      if buffer != [] {
        ZeroMask(buffer, CorruptionMask(|buffer|, count, seed));
      }
    case InjectBytes(position, data, len) =>
      if position <= |buffer| && Take(data, len) == [] {
        assert buffer[..position] + [] + buffer[position..] == buffer;
      }
    case ReplacePattern(find, findLen, replace, replaceLen) =>
      var needle, text := Take(find, findLen), Take(replace, replaceLen);
      var at := Leftmost(buffer, needle, 0);
      if at.Some? {
        var i := at.value;
        assert buffer == buffer[..i] + needle + buffer[i + |needle|..];
        ReplacementDiffers(buffer[..i], text, needle, buffer[i + |needle|..]);
      }
    case SwapBytes(i, j) =>
      if i < |buffer| && j < |buffer| && buffer[i] != buffer[j] {
        assert Swapped(buffer, i, j)[i] != buffer[i];
      }
    case _ =>
  }
}
