/** UTF-8 as `str::from_utf8` accepts it (section 4 of RFC 3629), and the clean-up applied to observed
    host names. */
module Utf8 {
  import opened Prelude

  /** A Unicode scalar value. */
  type Scalar = c: int | 0 <= c < 0xD800 || 0xE000 <= c < 0x11_0000

  function Encode(c: Scalar): (bs: seq<Octet>)
    ensures 1 <= |bs| <= 4
  {
    if c < 0x80 then [c]
    else if c < 0x800 then [0xC0 + c / 64, Tail(c)]
    else if c < 0x1_0000 then [0xE0 + c / 64 / 64, Tail(c / 64), Tail(c)]
    else [0xF0 + c / 64 / 64 / 64, Tail(c / 64 / 64), Tail(c / 64), Tail(c)]
  }

  /** The continuation byte for the low six bits of `c`. */
  function Tail(c: nat): Octet {
    0x80 + c % 64
  }

  function EncodeAll(cs: seq<Scalar>): seq<Octet> {
    if cs == [] then [] else Encode(cs[0]) + EncodeAll(cs[1..])
  }

  predicate Continuation(b: Octet) {
    0x80 <= b < 0xC0
  }

  /** How many bytes a sequence opened by `lead` has; 0 if no sequence starts with it. */
  function SequenceLength(lead: Octet): nat {
    if lead < 0x80 then 1
    else if 0xC0 <= lead < 0xE0 then 2
    else if 0xE0 <= lead < 0xF0 then 3
    else if 0xF0 <= lead < 0xF8 then 4
    else 0
  }

  /** All but the first of the `n` bytes at the front are continuation bytes. */
  predicate Continued(bs: seq<Octet>, n: nat)
    requires 1 <= n <= 4 && n <= |bs|
  {
    && (n > 1 ==> Continuation(bs[1]))
    && (n > 2 ==> Continuation(bs[2]))
    && (n > 3 ==> Continuation(bs[3]))
  }

  /** `high` followed by the six bits of a continuation byte. */
  function Join(high: int, b: Octet): int {
    high * 64 + (b - 0x80)
  }

  /** The scalar value at the front of `bs`; overlong forms, surrogates and values past U+10FFFF are errors. */
  function First(bs: seq<Octet>): Option<Scalar>
    requires bs != []
  {
    var n := SequenceLength(bs[0]);
    if n == 0 || n > |bs| || !Continued(bs, n) then None
    else if n == 1 then Some(bs[0])
    else if n == 2 then
      var c := Join(bs[0] - 0xC0, bs[1]);
      if c < 0x80 then None else Some(c)
    else if n == 3 then
      var c := Join(Join(bs[0] - 0xE0, bs[1]), bs[2]);
      if c < 0x800 || 0xD800 <= c < 0xE000 then None else Some(c)
    else
      var c := Join(Join(Join(bs[0] - 0xF0, bs[1]), bs[2]), bs[3]);
      if c < 0x1_0000 || c >= 0x11_0000 then None else Some(c)
  }

  /** The text encoded by `bs`, or nothing if `bs` is not well formed. */
  function Decode(bs: seq<Octet>): Option<seq<Scalar>> {
    if bs == [] then Some([])
    else
      match First(bs)
      case None => None
      case Some(c) =>
        var rest := Decode(bs[SequenceLength(bs[0])..]);
        if rest.None? then None else Some([c] + rest.value)
  }

  lemma JoinTail(c: nat)
    ensures Join(c / 64, Tail(c)) == c && Continuation(Tail(c))
  {
  }

  lemma SplitJoin(high: nat, b: Octet)
    requires Continuation(b)
    ensures Join(high, b) / 64 == high && Tail(Join(high, b)) == b
  {
  }

  lemma FirstOfEncoded(c: Scalar, rest: seq<Octet>)
    ensures First(Encode(c) + rest) == Some(c)
    ensures SequenceLength((Encode(c) + rest)[0]) == |Encode(c)|
  {
    JoinTail(c);
    JoinTail(c / 64);
    JoinTail(c / 64 / 64);
    var bs := Encode(c) + rest;
    var n := |Encode(c)|;
    assert bs[..n] == Encode(c);
    assert forall i | 0 <= i < n :: bs[i] == Encode(c)[i];
    assert SequenceLength(bs[0]) == n && Continued(bs, n);
  }

  lemma EncodeFirst(bs: seq<Octet>)
    requires bs != [] && First(bs).Some?
    ensures var n := SequenceLength(bs[0]); n <= |bs| && Encode(First(bs).value) == bs[..n]
  {
    var n := SequenceLength(bs[0]);
    if n == 2 {
      SplitJoin(bs[0] - 0xC0, bs[1]);
    } else if n == 3 {
      SplitJoin(bs[0] - 0xE0, bs[1]);
      SplitJoin(Join(bs[0] - 0xE0, bs[1]), bs[2]);
    } else if n == 4 {
      SplitJoin(bs[0] - 0xF0, bs[1]);
      SplitJoin(Join(bs[0] - 0xF0, bs[1]), bs[2]);
      SplitJoin(Join(Join(bs[0] - 0xF0, bs[1]), bs[2]), bs[3]);
    }
  }

  /** Decoding undoes encoding, for every text. */
  lemma {:induction false} DecodeEncoded(cs: seq<Scalar>)
    ensures Decode(EncodeAll(cs)) == Some(cs)
  {
    if cs != [] {
      var bs := EncodeAll(cs);
      var n := |Encode(cs[0])|;
      FirstOfEncoded(cs[0], EncodeAll(cs[1..]));
      assert bs[n..] == EncodeAll(cs[1..]);
      DecodeEncoded(cs[1..]);
      assert cs == [cs[0]] + cs[1..];
    }
  }

  lemma EncodeCons(c: Scalar, cs: seq<Scalar>)
    ensures EncodeAll([c] + cs) == Encode(c) + EncodeAll(cs)
  {
    assert ([c] + cs)[1..] == cs;
  }

  lemma DecodeCons(bs: seq<Octet>)
    requires bs != [] && Decode(bs).Some?
    ensures First(bs).Some? && SequenceLength(bs[0]) <= |bs|
    ensures var rest := Decode(bs[SequenceLength(bs[0])..]);
            rest.Some? && Decode(bs).value == [First(bs).value] + rest.value
  {
  }

  /** Every well-formed byte string is the encoding of the text it decodes to. */
  lemma {:induction false} EncodeDecoded(bs: seq<Octet>)
    requires Decode(bs).Some?
    ensures EncodeAll(Decode(bs).value) == bs
    decreases |bs|
  {
    if bs != [] {
      var n := SequenceLength(bs[0]);
      DecodeCons(bs);
      EncodeFirst(bs);
      EncodeDecoded(bs[n..]);
      EncodeCons(First(bs).value, Decode(bs[n..]).value);
    }
  }

  // ---- normalization of host names ----

  /** The characters with the Unicode White_Space property. */
  predicate IsWhitespace(c: Scalar) {
    || 0x09 <= c <= 0x0D || c == 0x20 || c == 0x85 || c == 0xA0 || c == 0x1680 || 0x2000 <= c <= 0x200A
    || c == 0x2028 || c == 0x2029 || c == 0x202F || c == 0x205F || c == 0x3000
  }

  function TrimStart(cs: seq<Scalar>): seq<Scalar> {
    if cs != [] && IsWhitespace(cs[0]) then TrimStart(cs[1..]) else cs
  }

  function TrimEnd(cs: seq<Scalar>): seq<Scalar> {
    if cs != [] && IsWhitespace(cs[|cs| - 1]) then TrimEnd(cs[..|cs| - 1]) else cs
  }

  function TrimEndDots(cs: seq<Scalar>): seq<Scalar> {
    if cs != [] && cs[|cs| - 1] == '.' as int then TrimEndDots(cs[..|cs| - 1]) else cs
  }

  function ToAsciiLowercase(cs: seq<Scalar>): seq<Scalar> {
    seq(|cs|, i requires 0 <= i < |cs| =>
      var c := cs[i];
      if 'A' as int <= c <= 'Z' as int then (c + 32) as Scalar else c)
  }

  /** The name rules are matched against, or nothing if the bytes are not UTF-8 or nothing is left. */
  function NormalizeName(bs: seq<Octet>): Option<seq<Scalar>> {
    match Decode(bs)
    case None => None
    case Some(cs) =>
      var name := ToAsciiLowercase(TrimEndDots(TrimEnd(TrimStart(cs))));
      if name == [] then None else Some(name)
  }

  // ---- what a normalized name is ----

  /** The White_Space characters, one by one. */
  lemma WhitespaceIs(c: Scalar)
    ensures IsWhitespace(c) <==> c in {
      0x09, 0x0A, 0x0B, 0x0C, 0x0D, 0x20, 0x85, 0xA0, 0x1680, 0x2000, 0x2001, 0x2002, 0x2003, 0x2004, 0x2005,
      0x2006, 0x2007, 0x2008, 0x2009, 0x200A, 0x2028, 0x2029, 0x202F, 0x205F, 0x3000}
  {
  }

  predicate AllWhitespace(cs: seq<Scalar>) {
    forall i | 0 <= i < |cs| :: IsWhitespace(cs[i])
  }

  predicate AllDots(cs: seq<Scalar>) {
    forall i | 0 <= i < |cs| :: cs[i] == '.' as int
  }

  /** The text is whitespace, a name that is not empty, dots and whitespace, with nothing left to take off at
      either end of the name. */
  predicate Splits(
    cs: seq<Scalar>, lead: seq<Scalar>, middle: seq<Scalar>, dots: seq<Scalar>, trail: seq<Scalar>)
  {
    && cs == lead + (middle + dots + trail)
    && AllWhitespace(lead) && AllDots(dots) && AllWhitespace(trail)
    && middle != [] && !IsWhitespace(middle[0])
    && middle[|middle| - 1] != '.' as int
    && (dots == [] ==> !IsWhitespace(middle[|middle| - 1]))
  }

  /** `name` is `middle` with `A` to `Z` replaced by `a` to `z`. */
  predicate Lowered(middle: seq<Scalar>, name: seq<Scalar>) {
    && |name| == |middle|
    && forall i | 0 <= i < |name| ::
         name[i] == if 'A' as int <= middle[i] <= 'Z' as int then middle[i] - 'A' as int + 'a' as int else middle[i]
  }

  lemma {:induction false} TrimStartTakes(cs: seq<Scalar>) returns (lead: seq<Scalar>)
    ensures cs == lead + TrimStart(cs) && AllWhitespace(lead)
    ensures TrimStart(cs) != [] ==> !IsWhitespace(TrimStart(cs)[0])
    decreases |cs|
  {
    if cs != [] && IsWhitespace(cs[0]) {
      lead := TrimStartTakes(cs[1..]);
      lead := [cs[0]] + lead;
    } else {
      lead := [];
    }
  }

  lemma {:induction false} TrimEndTakes(cs: seq<Scalar>) returns (trail: seq<Scalar>)
    ensures cs == TrimEnd(cs) + trail && AllWhitespace(trail)
    ensures TrimEnd(cs) != [] ==> !IsWhitespace(TrimEnd(cs)[|TrimEnd(cs)| - 1])
    decreases |cs|
  {
    if cs != [] && IsWhitespace(cs[|cs| - 1]) {
      trail := TrimEndTakes(cs[..|cs| - 1]);
      trail := trail + [cs[|cs| - 1]];
    } else {
      trail := [];
    }
  }

  lemma {:induction false} TrimEndDotsTakes(cs: seq<Scalar>) returns (dots: seq<Scalar>)
    ensures cs == TrimEndDots(cs) + dots && AllDots(dots)
    ensures TrimEndDots(cs) != [] ==> TrimEndDots(cs)[|TrimEndDots(cs)| - 1] != '.' as int
    decreases |cs|
  {
    if cs != [] && cs[|cs| - 1] == '.' as int {
      dots := TrimEndDotsTakes(cs[..|cs| - 1]);
      dots := dots + [cs[|cs| - 1]];
    } else {
      dots := [];
    }
  }

  lemma {:induction false} TrimStartStops(lead: seq<Scalar>, rest: seq<Scalar>)
    requires AllWhitespace(lead) && rest != [] && !IsWhitespace(rest[0])
    ensures TrimStart(lead + rest) == rest
    decreases |lead|
  {
    if lead == [] {
      assert lead + rest == rest;
    } else {
      assert (lead + rest)[1..] == lead[1..] + rest;
      TrimStartStops(lead[1..], rest);
    }
  }

  lemma {:induction false} TrimEndStops(rest: seq<Scalar>, trail: seq<Scalar>)
    requires AllWhitespace(trail) && rest != [] && !IsWhitespace(rest[|rest| - 1])
    ensures TrimEnd(rest + trail) == rest
    decreases |trail|
  {
    if trail == [] {
      assert rest + trail == rest;
    } else {
      assert (rest + trail)[..|rest + trail| - 1] == rest + trail[..|trail| - 1];
      TrimEndStops(rest, trail[..|trail| - 1]);
    }
  }

  lemma {:induction false} TrimEndDotsStops(rest: seq<Scalar>, dots: seq<Scalar>)
    requires AllDots(dots) && rest != [] && rest[|rest| - 1] != '.' as int
    ensures TrimEndDots(rest + dots) == rest
    decreases |dots|
  {
    if dots == [] {
      assert rest + dots == rest;
    } else {
      assert (rest + dots)[..|rest + dots| - 1] == rest + dots[..|dots| - 1];
      TrimEndDotsStops(rest, dots[..|dots| - 1]);
    }
  }

  lemma SplitIsNormalized(
    cs: seq<Scalar>, lead: seq<Scalar>, middle: seq<Scalar>, dots: seq<Scalar>, trail: seq<Scalar>,
    name: seq<Scalar>)
    requires Splits(cs, lead, middle, dots, trail) && Lowered(middle, name)
    ensures ToAsciiLowercase(TrimEndDots(TrimEnd(TrimStart(cs)))) == name
  {
    TrimStartStops(lead, middle + dots + trail);
    assert dots != [] ==> (middle + dots)[|middle + dots| - 1] == '.' as int;
    assert dots == [] ==> middle + dots == middle;
    TrimEndStops(middle + dots, trail);
    TrimEndDotsStops(middle, dots);
  }

  lemma NormalizedIsSplit(cs: seq<Scalar>)
    returns (lead: seq<Scalar>, middle: seq<Scalar>, dots: seq<Scalar>, trail: seq<Scalar>)
    requires ToAsciiLowercase(TrimEndDots(TrimEnd(TrimStart(cs)))) != []
    ensures Splits(cs, lead, middle, dots, trail)
    ensures Lowered(middle, ToAsciiLowercase(TrimEndDots(TrimEnd(TrimStart(cs)))))
  {
    lead := TrimStartTakes(cs);
    trail := TrimEndTakes(TrimStart(cs));
    middle := TrimEndDots(TrimEnd(TrimStart(cs)));
    dots := TrimEndDotsTakes(TrimEnd(TrimStart(cs)));
    assert middle[0] == TrimStart(cs)[0];
    assert dots == [] ==> middle == TrimEnd(TrimStart(cs));
  }

  /** A name comes of a text exactly when the bytes are UTF-8 for whitespace, a part that is not empty, dots and
      whitespace, with as much as possible taken off at either end, and the name is that part in lower case. */
  lemma NormalizedName(bs: seq<Octet>, name: seq<Scalar>)
    ensures NormalizeName(bs) == Some(name)
       <==> Decode(bs).Some? && exists lead, middle, dots, trail ::
              Splits(Decode(bs).value, lead, middle, dots, trail) && Lowered(middle, name)
  {
    if Decode(bs).Some? {
      var cs := Decode(bs).value;
      if NormalizeName(bs) == Some(name) {
        var lead, middle, dots, trail := NormalizedIsSplit(cs);
        assert Splits(cs, lead, middle, dots, trail) && Lowered(middle, name);
      }
      forall lead, middle, dots, trail | Splits(cs, lead, middle, dots, trail) && Lowered(middle, name)
        ensures NormalizeName(bs) == Some(name)
      {
        SplitIsNormalized(cs, lead, middle, dots, trail, name);
      }
    }
  }

  /** A name is not empty, holds no upper-case ASCII letter, and does not end in a dot. */
  lemma NamesAreLowercase(bs: seq<Octet>)
    requires NormalizeName(bs).Some?
    ensures var name := NormalizeName(bs).value;
      && name != [] && name[|name| - 1] != '.' as int
      && forall i | 0 <= i < |name| :: !('A' as int <= name[i] <= 'Z' as int)
  {
    var lead, middle, dots, trail := NormalizedIsSplit(Decode(bs).value);
    assert Lowered(middle, NormalizeName(bs).value);
  }
}
