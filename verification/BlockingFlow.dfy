/** The token bucket on blocking sockets.  A delayed request is not refused: its caller sleeps through the delay
    and then sends without being charged.  Here every request counts, at the time it is released. */
module BlockingFlow {
  import opened FlowControl
  import opened Layers
  import opened Powers
  import opened Prelude

  /** When the request goes on the wire. */
  ghost function ReleasedAt(b: Bucket, rate: U64, q: Request): nat {
    match Step(b, rate, 2 * rate, q).1
    case DelayNs(ns) => q.restarted + ns
    case _ => q.restarted
  }

  /** Each request is made after the one before it has been released. */
  ghost predicate Blocking(b: Bucket, rate: U64, clock: nat, qs: seq<Request>)
    decreases |qs|
  {
    qs == [] ||
    (&& clock <= qs[0].measured <= qs[0].restarted
     && Blocking(Next(b, rate, qs[0]), rate, ReleasedAt(b, rate, qs[0]), qs[1..]))
  }

  ghost function LastRelease(b: Bucket, rate: U64, clock: nat, qs: seq<Request>): nat
    decreases |qs|
  {
    if qs == [] then clock
    else LastRelease(Next(b, rate, qs[0]), rate, ReleasedAt(b, rate, qs[0]), qs[1..])
  }

  /** The bits sent in the end: all of them. */
  function SentBits(qs: seq<Request>): nat {
    if qs == [] then 0 else 8 * qs[0].bytes + SentBits(qs[1..])
  }

  ghost predicate NoneDelayed(b: Bucket, rate: U64, qs: seq<Request>)
    decreases |qs|
  {
    qs == [] || (Step(b, rate, 2 * rate, qs[0]).1 == Continue && NoneDelayed(Next(b, rate, qs[0]), rate, qs[1..]))
  }

  ghost predicate SentWithinRate(b: Bucket, rate: U64, clock: nat, window: seq<Request>)
    requires window != []
  {
    SentBits(window) * 1_000_000_000
    <= rate * (2 * 1_000_000_000 + LastRelease(b, rate, clock, window) - window[0].measured)
  }

  predicate UpTo(qs: seq<Request>, maxBytes: U64) {
    forall i | 0 <= i < |qs| :: qs[i].bytes <= maxBytes
  }

  /** A window of blocking requests after others, from an empty bucket: of at most `maxBytes` each, and none of
      them delayed unless that is allowed. */
  ghost predicate InClass(
    rate: U64, before: seq<Request>, window: seq<Request>, maxBytes: U64, mayDelay: bool)
  {
    var b, clock := Run(Bucket(0, 0), rate, before), LastRelease(Bucket(0, 0), rate, 0, before);
    && window != [] && UpTo(before, maxBytes) && UpTo(window, maxBytes)
    && Blocking(Bucket(0, 0), rate, 0, before) && Blocking(b, rate, clock, window)
    && (mayDelay || (NoneDelayed(Bucket(0, 0), rate, before) && NoneDelayed(b, rate, window)))
  }

  ghost predicate Enforced(rate: U64, maxBytes: U64, mayDelay: bool) {
    forall before: seq<Request>, window: seq<Request> | InClass(rate, before, window, maxBytes, mayDelay) ::
      SentWithinRate(Run(Bucket(0, 0), rate, before), rate, LastRelease(Bucket(0, 0), rate, 0, before), window)
  }

  // ---- without delays ----

  /** Without delays the blocking runs are the timely ones, and everything sent passed at once. */
  lemma {:induction false} NoDelayNoDifference(b: Bucket, rate: U64, clock: nat, qs: seq<Request>)
    requires NoneDelayed(b, rate, qs)
    ensures Blocking(b, rate, clock, qs) <==> Timely(clock, qs)
    ensures LastRelease(b, rate, clock, qs) == EndClock(clock, qs)
    ensures SentBits(qs) == PassedBits(b, rate, qs)
    decreases |qs|
  {
    if qs != [] {
      NoDelayNoDifference(Next(b, rate, qs[0]), rate, qs[0].restarted, qs[1..]);
    }
  }

  lemma UndelayedConforms(rate: U64, before: seq<Request>, window: seq<Request>, maxBytes: U64)
    requires rate > 0 && Pays(rate) && InClass(rate, before, window, maxBytes, false)
    ensures SentWithinRate(
              Run(Bucket(0, 0), rate, before), rate, LastRelease(Bucket(0, 0), rate, 0, before), window)
  {
    NoDelayNoDifference(Bucket(0, 0), rate, 0, before);
    NoDelayNoDifference(Run(Bucket(0, 0), rate, before), rate, EndClock(0, before), window);
    WindowConforms(0, before, window, rate);
  }

  lemma {:induction false} EmptyRequestsSendNothing(qs: seq<Request>)
    requires UpTo(qs, 0)
    ensures SentBits(qs) == 0
  {
    if qs != [] {
      EmptyRequestsSendNothing(qs[1..]);
    }
  }

  lemma {:induction false} ReleasesGoOn(b: Bucket, rate: U64, clock: nat, qs: seq<Request>)
    requires Blocking(b, rate, clock, qs)
    ensures LastRelease(b, rate, clock, qs) >= clock
    ensures qs != [] ==> LastRelease(b, rate, clock, qs) >= qs[0].measured
    decreases |qs|
  {
    if qs != [] {
      ReleasesGoOn(Next(b, rate, qs[0]), rate, ReleasedAt(b, rate, qs[0]), qs[1..]);
    }
  }

  // ---- at rates at which a shortfall can be free ----

  lemma {:induction false} TicksAreNotDelayed(b: Bucket, rate: U64, t: nat, j: nat)
    ensures NoneDelayed(b, rate, Ticks(j, t)) && UpTo(Ticks(j, t), 0)
    decreases j
  {
    if j > 0 {
      assert Ticks(j, t)[1..] == Ticks(j - 1, t + 1);
      TicksAreNotDelayed(Next(b, rate, Ticks(j, t)[0]), rate, t + 1, j - 1);
    }
  }

  lemma {:induction false} BurstIsNotDelayed(rate: U64, tokens: U64, t: nat, n: nat)
    requires tokens < 8 && (8 - tokens) * 1_000_000_000 < rate
    ensures NoneDelayed(Bucket(tokens, t), rate, Burst(n, t)) && UpTo(Burst(n, t), 1)
    decreases n
  {
    if n > 0 {
      ShortPassesFree(rate, tokens, t);
      assert Burst(n, t)[1..] == Burst(n - 1, t);
      BurstIsNotDelayed(rate, tokens, t, n - 1);
    }
  }

  lemma FreeShortfallsFail(rate: U64, maxBytes: U64, mayDelay: bool)
    requires !Pays(rate) && maxBytes > 0
    ensures !Enforced(rate, maxBytes, mayDelay)
  {
    var ticks, tokens := JustShort(rate);
    var before, window := Ticks(ticks, 0), Burst(rate, ticks);
    var b := Bucket(tokens, ticks);
    TicksFill(rate, 0, 0, ticks);
    TicksAreNotDelayed(Bucket(0, 0), rate, 0, ticks);
    BurstIsNotDelayed(rate, tokens, ticks, rate);
    BurstIsNotWithinRate(rate, tokens, ticks);
    NoDelayNoDifference(Bucket(0, 0), rate, 0, before);
    NoDelayNoDifference(b, rate, ticks, window);
    assert InClass(rate, before, window, maxBytes, mayDelay);
    assert !SentWithinRate(b, rate, ticks, window);
  }

  // ---- delayed bytes ----

  /** The bucket between two rounds: full, if the burst is less than a byte, and otherwise all but empty. */
  ghost predicate Between(rate: U64, b: Bucket, clock: nat) {
    if rate <= 3 then b.tokens == 2 * rate && b.last <= clock
    else b.tokens <= 1 && b.last == clock && (rate > 1_000_000_000 ==> b.tokens == 0)
  }

  function Byte(t: nat): Request {
    Request(1, t, t)
  }

  lemma BlockingCons(b: Bucket, rate: U64, clock: nat, q: Request, rest: seq<Request>)
    ensures Blocking(b, rate, clock, [q] + rest)
       <==> && clock <= q.measured <= q.restarted
            && Blocking(Next(b, rate, q), rate, ReleasedAt(b, rate, q), rest)
    ensures LastRelease(b, rate, clock, [q] + rest)
         == LastRelease(Next(b, rate, q), rate, ReleasedAt(b, rate, q), rest)
    ensures SentBits([q] + rest) == 8 * q.bytes + SentBits(rest)
  {
    assert ([q] + rest)[1..] == rest;
  }

  /** A delayed byte costs no token, and the delay is no longer than the shortfall takes to earn. */
  lemma DelayedByte(rate: U64, b: Bucket, t: nat) returns (delay: nat)
    requires 0 < rate && Pays(rate) && Aligned(rate, b.tokens)
    requires Refilled(b, rate, 2 * rate, Byte(t)) == Bucket(b.tokens, if t > b.last then t else b.last)
    requires b.tokens < 8
    ensures Next(b, rate, Byte(t)) == Refilled(b, rate, 2 * rate, Byte(t))
    ensures ReleasedAt(b, rate, Byte(t)) == t + delay
    ensures Times(rate, delay) <= (8 - b.tokens) * 1_000_000_000 < Times(rate, delay + 1)
  {
    var short := 8 - b.tokens;
    delay := Quotient(short * 1_000_000_000, rate);
    QuotientFits(short * 1_000_000_000, rate);
    QuotientIsGreatest(short * 1_000_000_000, rate);
    QuotientIsBelow(short * 1_000_000_000, rate);
    ByteShort(rate, b.tokens);
  }

  lemma {:induction false} QuotientIsBelow(a: nat, d: nat)
    requires d > 0
    ensures Quotient(a, d) <= a
    decreases a
  {
    if a >= d {
      QuotientIsBelow(a - d, d);
    }
  }

  lemma ByteShort(rate: U64, tokens: U64)
    requires 0 < rate && Pays(rate) && Aligned(rate, tokens) && tokens < 8
    ensures DelayFor(8 - tokens, rate) > 0
  {
    if rate > 1_000_000_000 {
      MultipleIsMod(8, 2);
      MultipleIsMod(8, 4);
      MultipleIsMod(8, 8);
      MultipleSubtracts(8, tokens, Grain(rate));
    }
    DelayIsPositive(8 - tokens, rate);
  }

  lemma StaysFull(rate: U64, b: Bucket, t: nat)
    requires 0 < rate <= 3 && b.tokens == 2 * rate && b.last <= t
    ensures Refilled(b, rate, 2 * rate, Byte(t)) == Bucket(b.tokens, t)
  {
  }

  /** Two bytes and the bucket as before, in no more time than twelve bits take to earn. */
  lemma SmallBurstRound(rate: U64, b: Bucket, clock: nat) returns (q1: Request, q2: Request)
    requires 0 < rate <= 3 && Between(rate, b, clock)
    ensures IsRound(rate, b, clock, q1, q2)
  {
    q1 := Byte(clock);
    StaysFull(rate, b, clock);
    MultipleOfOne(b.tokens);
    var d1 := DelayedByte(rate, b, clock);
    var m := Next(b, rate, q1);
    assert m == Bucket(b.tokens, clock);
    q2 := Byte(clock + d1);
    StaysFull(rate, m, clock + d1);
    var d2 := DelayedByte(rate, m, clock + d1);
    TimesAdds(rate, d1, d2);
  }

  ghost function AfterTwo(rate: U64, b: Bucket, q1: Request, q2: Request): (Bucket, nat) {
    var m := Next(b, rate, q1);
    (Next(m, rate, q2), ReleasedAt(m, rate, q2))
  }

  /** One round: where it leaves the bucket and the clock, and how long it takes. */
  ghost predicate IsRound(rate: U64, b: Bucket, clock: nat, q1: Request, q2: Request) {
    var mid := ReleasedAt(b, rate, q1);
    var (t, end) := AfterTwo(rate, b, q1, q2);
    && q1.bytes == q2.bytes == 1 && q1.measured == clock
    && clock <= q1.measured <= q1.restarted && mid <= q2.measured <= q2.restarted
    && Between(rate, t, end) && Lasts(rate, clock, end, 1)
  }

  lemma SlowRound(rate: U64, b: Bucket, clock: nat) returns (q1: Request, q2: Request)
    requires 4 <= rate <= 1_000_000_000 && Between(rate, b, clock)
    ensures IsRound(rate, b, clock, q1, q2)
  {
    q1 := Byte(clock);
    MultipleOfOne(b.tokens);
    var d := DelayedByte(rate, b, clock);
    q2 := Byte(clock + d + 1);
    TimesAdds(rate, d, 1);
    TimesOne(rate);
    var earned := Times(rate, d + 1) / 1_000_000_000;
    assert 8 - b.tokens <= earned <= 9 - b.tokens;
    assert Refilled(b, rate, 2 * rate, q2).tokens == b.tokens + earned;
  }

  lemma FastRound(rate: U64, b: Bucket, clock: nat) returns (q1: Request, q2: Request)
    requires rate > 1_000_000_000 && Pays(rate) && Between(rate, b, clock)
    ensures IsRound(rate, b, clock, q1, q2)
  {
    q1 := Byte(clock);
    var d := DelayedByte(rate, b, clock);
    TimesIsProduct(rate, d);
    TimesIsProduct(rate, d + 1);
    assert rate * (d + 1) == rate * d + rate;
    EightBits(rate, d);
    q2 := Byte(clock + d);
  }

  lemma EightBits(rate: U64, d: nat)
    requires rate == 2_000_000_000 || rate == 4_000_000_000 || rate == 8_000_000_000
    requires rate * d <= 8_000_000_000 < rate * d + rate
    ensures rate * d == 8_000_000_000
  {
  }

  lemma Round(rate: U64, b: Bucket, clock: nat) returns (q1: Request, q2: Request)
    requires rate > 0 && Pays(rate) && Between(rate, b, clock)
    ensures IsRound(rate, b, clock, q1, q2)
  {
    if rate <= 3 {
      q1, q2 := SmallBurstRound(rate, b, clock);
    } else if rate <= 1_000_000_000 {
      q1, q2 := SlowRound(rate, b, clock);
    } else {
      q1, q2 := FastRound(rate, b, clock);
    }
  }

  /** `n` rounds take no more time than twelve bits each take to earn. */
  predicate Lasts(rate: U64, clock: nat, end: nat, n: nat) {
    clock <= end && Times(rate, end - clock) <= 12_000_000_000 * n
  }

  /** `n` rounds of two bytes each. */
  ghost predicate AreRounds(rate: U64, b: Bucket, clock: nat, n: nat, qs: seq<Request>) {
    && Blocking(b, rate, clock, qs) && UpTo(qs, 1) && SentBits(qs) == 16 * n
    && Lasts(rate, clock, LastRelease(b, rate, clock, qs), n)
    && (n > 0 ==> qs != [] && qs[0].measured == clock)
  }

  lemma TwoCons(rate: U64, b: Bucket, clock: nat, q1: Request, q2: Request, rest: seq<Request>)
    requires clock <= q1.measured <= q1.restarted && ReleasedAt(b, rate, q1) <= q2.measured <= q2.restarted
    requires var (t, end) := AfterTwo(rate, b, q1, q2); Blocking(t, rate, end, rest)
    ensures Blocking(b, rate, clock, [q1] + ([q2] + rest))
    ensures SentBits([q1] + ([q2] + rest)) == 8 * q1.bytes + 8 * q2.bytes + SentBits(rest)
    ensures var (t, end) := AfterTwo(rate, b, q1, q2);
            LastRelease(b, rate, clock, [q1] + ([q2] + rest)) == LastRelease(t, rate, end, rest)
  {
    BlockingCons(Next(b, rate, q1), rate, ReleasedAt(b, rate, q1), q2, rest);
    BlockingCons(b, rate, clock, q1, [q2] + rest);
  }

  lemma LastsLonger(rate: U64, clock: nat, end: nat, last: nat, n: nat)
    requires Lasts(rate, clock, end, 1) && Lasts(rate, end, last, n)
    ensures Lasts(rate, clock, last, n + 1)
  {
    TimesAdds(rate, end - clock, last - end);
  }

  lemma UpToTwo(q1: Request, q2: Request, rest: seq<Request>, maxBytes: U64)
    requires q1.bytes <= maxBytes && q2.bytes <= maxBytes && UpTo(rest, maxBytes)
    ensures UpTo([q1] + ([q2] + rest), maxBytes)
  {
  }

  lemma OneMoreRound(rate: U64, b: Bucket, clock: nat, q1: Request, q2: Request, n: nat, rest: seq<Request>)
    requires IsRound(rate, b, clock, q1, q2)
    requires var (t, end) := AfterTwo(rate, b, q1, q2); AreRounds(rate, t, end, n, rest)
    ensures AreRounds(rate, b, clock, n + 1, [q1] + ([q2] + rest))
  {
    var (t, end) := AfterTwo(rate, b, q1, q2);
    TwoCons(rate, b, clock, q1, q2, rest);
    UpToTwo(q1, q2, rest, 1);
    LastsLonger(rate, clock, end, LastRelease(t, rate, end, rest), n);
  }

  lemma {:induction false} Rounds(rate: U64, b: Bucket, clock: nat, n: nat) returns (qs: seq<Request>)
    requires rate > 0 && Pays(rate) && Between(rate, b, clock)
    ensures AreRounds(rate, b, clock, n, qs)
    decreases n
  {
    if n == 0 {
      qs := [];
      TimesZero(rate);
    } else {
      var q1, q2 := Round(rate, b, clock);
      var (t, end) := AfterTwo(rate, b, q1, q2);
      var rest := Rounds(rate, t, end, n - 1);
      qs := [q1] + ([q2] + rest);
      OneMoreRound(rate, b, clock, q1, q2, n - 1, rest);
    }
  }

  /** The first fill: two idle seconds if the burst is less than a byte. */
  lemma StartBetween(rate: U64) returns (before: seq<Request>)
    requires rate > 0 && Pays(rate)
    ensures UpTo(before, 0) && Blocking(Bucket(0, 0), rate, 0, before)
    ensures Between(rate, Run(Bucket(0, 0), rate, before), LastRelease(Bucket(0, 0), rate, 0, before))
  {
    if rate <= 3 {
      var q := Request(0, 2_000_000_000, 2_000_000_000);
      before := [q] + [];
      IdleBucketGrantsTheBurst(Bucket(0, 0), rate, q);
      BlockingCons(Bucket(0, 0), rate, 0, q, []);
      assert before[1..] == [];
      assert Run(Bucket(0, 0), rate, before) == Next(Bucket(0, 0), rate, q);
    } else {
      before := [];
    }
  }

  lemma TooMuch(rate: nat, span: nat)
    requires rate > 0 && Times(rate, span) <= 12_000_000_000 * rate
    ensures 16 * rate * 1_000_000_000 > rate * (2 * 1_000_000_000 + span)
  {
    TimesIsProduct(rate, span);
    assert rate * (2 * 1_000_000_000 + span) == rate * 2_000_000_000 + rate * span;
  }

  /** Delayed requests of a single byte already exceed every rate. */
  lemma DelayedBytesFail(rate: U64, maxBytes: U64)
    requires rate > 0 && Pays(rate) && maxBytes > 0
    ensures !Enforced(rate, maxBytes, true)
  {
    var before := StartBetween(rate);
    var b, clock := Run(Bucket(0, 0), rate, before), LastRelease(Bucket(0, 0), rate, 0, before);
    var window := Rounds(rate, b, clock, rate);
    TooMuch(rate, LastRelease(b, rate, clock, window) - clock);
    assert InClass(rate, before, window, maxBytes, true);
    assert !SentWithinRate(b, rate, clock, window);
  }

  lemma EmptyWindowConforms(rate: U64, b: Bucket, clock: nat, window: seq<Request>)
    requires window != [] && UpTo(window, 0) && Blocking(b, rate, clock, window)
    ensures SentWithinRate(b, rate, clock, window)
  {
    EmptyRequestsSendNothing(window);
    ReleasesGoOn(b, rate, clock, window);
    NotNegative(rate, 2 * 1_000_000_000 + LastRelease(b, rate, clock, window) - window[0].measured);
  }

  lemma NotNegative(x: nat, y: nat)
    ensures x * y >= 0
  {
  }

  lemma EmptyRequestsAreEnforced(rate: U64, mayDelay: bool)
    ensures Enforced(rate, 0, mayDelay)
  {
    forall before: seq<Request>, window: seq<Request> | InClass(rate, before, window, 0, mayDelay)
      ensures SentWithinRate(
                Run(Bucket(0, 0), rate, before), rate, LastRelease(Bucket(0, 0), rate, 0, before), window)
    {
      EmptyWindowConforms(
        rate, Run(Bucket(0, 0), rate, before), LastRelease(Bucket(0, 0), rate, 0, before), window);
    }
  }

  lemma UndelayedRequestsAreEnforced(rate: U64, maxBytes: U64)
    requires rate > 0 && Pays(rate)
    ensures Enforced(rate, maxBytes, false)
  {
    forall before: seq<Request>, window: seq<Request> | InClass(rate, before, window, maxBytes, false)
      ensures SentWithinRate(
                Run(Bucket(0, 0), rate, before), rate, LastRelease(Bucket(0, 0), rate, 0, before), window)
    {
      UndelayedConforms(rate, before, window, maxBytes);
    }
  }

  /** Counting every request when it is released, the rate is enforced over all runs of a class exactly if its
      requests are empty, or it has no delayed ones and every shortfall takes time. */
  lemma BlockingRateIsEnforced(rate: U64, maxBytes: U64, mayDelay: bool)
    requires rate > 0
    ensures Enforced(rate, maxBytes, mayDelay) <==> maxBytes == 0 || (!mayDelay && Pays(rate))
  {
    if maxBytes == 0 {
      EmptyRequestsAreEnforced(rate, mayDelay);
    } else if !Pays(rate) {
      FreeShortfallsFail(rate, maxBytes, mayDelay);
    } else if mayDelay {
      DelayedBytesFail(rate, maxBytes);
    } else {
      UndelayedRequestsAreEnforced(rate, maxBytes);
    }
  }
}
